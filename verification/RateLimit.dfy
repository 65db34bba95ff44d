/**
 The per-client order rate limit: a deque of accepted times per client, pruned from the left,
 against the simple rule that looks through the client's whole history of accepted orders.
 Clock readings and waits are reals; `window` and the advertised wait are whole seconds.
 */
module RateLimit {
  import opened Decimal
  import opened Wrappers

  datatype Limit = Limit(count: int, window: int)

  /** One call of `check`, at the clock reading it took. */
  datatype Call = Call(client: string, now: real)

  /** What `check` answers; `Broken` is the IndexError of looking at an empty deque. */
  datatype RateCheck = Allowed | Refused(retryAfter: int) | Broken

  // ---------- the simple rule ----------

  function Max(a: int, b: int): int {
    if a >= b then a else b
  }

  /** The accepted times that still count at `now`. */
  function Recent(limit: Limit, times: seq<real>, now: real): seq<real> {
    if times == [] then []
    else (if now - times[0] >= limit.window as real then [] else [times[0]]) + Recent(limit, times[1..], now)
  }

  /** The answer, from every order ever accepted for the client. */
  function Decide(limit: Limit, accepted: seq<real>, now: real): RateCheck {
    var recent := Recent(limit, accepted, now);
    if |recent| < limit.count then Allowed
    else if recent == [] then Broken
    else Refused(Max(1, Round(limit.window as real - (now - recent[0]))))
  }

  /** The times at which the client's orders were accepted over a run. */
  function Accepted(limit: Limit, calls: seq<Call>, client: string): seq<real> {
    if calls == [] then [] else
      var before, last := Accepted(limit, calls[..|calls| - 1], client), calls[|calls| - 1];
      if last.client == client && Decide(limit, before, last.now) == Allowed then before + [last.now] else before
  }

  ghost predicate ClockRuns(calls: seq<Call>) {
    forall i, j :: 0 <= i < j < |calls| ==> calls[i].now <= calls[j].now
  }

  ghost predicate Sorted(times: seq<real>) {
    forall i, j :: 0 <= i < j < |times| ==> times[i] <= times[j]
  }

  // ---------- the pruned deque ----------

  /** `popleft` while the oldest has left the window. */
  function Pruned(limit: Limit, times: seq<real>, now: real): seq<real> {
    if times != [] && now - times[0] >= limit.window as real then Pruned(limit, times[1..], now) else times
  }

  lemma {:induction false} RecentAll(limit: Limit, times: seq<real>, now: real)
    requires Sorted(times) && (times != [] ==> now - times[0] < limit.window as real)
    ensures Recent(limit, times, now) == times
  {
    if times != [] {
      RecentAll(limit, times[1..], now);
      assert [times[0]] + times[1..] == times;
    }
  }

  /** On a sorted deque pruning from the left is filtering. */
  lemma {:induction false} PrunedIsRecent(limit: Limit, times: seq<real>, now: real)
    requires Sorted(times)
    ensures Pruned(limit, times, now) == Recent(limit, times, now)
  {
    if times != [] && now - times[0] >= limit.window as real {
      PrunedIsRecent(limit, times[1..], now);
    } else {
      RecentAll(limit, times, now);
    }
  }

  lemma {:induction false} RecentSkips(limit: Limit, times: seq<real>, k: nat, now: real)
    requires k <= |times| && forall i :: 0 <= i < k ==> now - times[i] >= limit.window as real
    ensures Recent(limit, times, now) == Recent(limit, times[k..], now)
  {
    if k > 0 {
      RecentSkips(limit, times[1..], k - 1, now);
      assert times[1..][k - 1..] == times[k..];
    } else {
      assert times[0..] == times;
    }
  }

  lemma {:induction false} PrunedIsSuffix(limit: Limit, times: seq<real>, now: real) returns (k: nat)
    ensures k <= |times| && Pruned(limit, times, now) == times[k..]
    ensures forall i :: 0 <= i < k ==> now - times[i] >= limit.window as real
  {
    if times != [] && now - times[0] >= limit.window as real {
      var rest := PrunedIsSuffix(limit, times[1..], now);
      k := rest + 1;
      forall i | 0 <= i < k ensures now - times[i] >= limit.window as real {
        if i > 0 { assert times[i] == times[1..][i - 1]; }
      }
    } else {
      k := 0;
    }
  }

  lemma {:induction false} AcceptedSorted(limit: Limit, calls: seq<Call>, client: string)
    requires ClockRuns(calls)
    ensures Sorted(Accepted(limit, calls, client))
    ensures forall i :: 0 <= i < |Accepted(limit, calls, client)| ==>
              calls != [] && Accepted(limit, calls, client)[i] <= calls[|calls| - 1].now
  {
    if calls != [] {
      var n := |calls| - 1;
      AcceptedSorted(limit, calls[..n], client);
    }
  }

  // ---------- the limiter ----------

  /** What the deque of a client must be: the accepted times without a prefix that has expired for good. */
  ghost predicate Represents(limit: Limit, deque: seq<real>, accepted: seq<real>, latest: real) {
    && |deque| <= |accepted| && deque == accepted[|accepted| - |deque|..]
    && |deque| <= Max(limit.count, 0)
    && forall i :: 0 <= i < |accepted| - |deque| ==> latest - accepted[i] >= limit.window as real
  }

  lemma PrunedRepresents(limit: Limit, deque: seq<real>, accepted: seq<real>, latest: real, now: real)
    requires Sorted(accepted) && Represents(limit, deque, accepted, latest) && latest <= now
    ensures Represents(limit, Pruned(limit, deque, now), accepted, now)
    ensures Pruned(limit, deque, now) == Recent(limit, accepted, now)
  {
    var gone := |accepted| - |deque|;
    var k := PrunedIsSuffix(limit, deque, now);
    assert deque[k..] == accepted[gone + k..];
    forall i | 0 <= i < gone + k ensures now - accepted[i] >= limit.window as real {
      if i >= gone { assert accepted[i] == deque[i - gone]; }
    }
    PrunedIsRecent(limit, deque, now);
    RecentSkips(limit, accepted, gone, now);
  }

  function Latest(calls: seq<Call>): real {
    if calls == [] then 0.0 else calls[|calls| - 1].now
  }

  ghost predicate DequeFits(limit: Limit, orders: map<string, seq<real>>, calls: seq<Call>, client: string) {
    if client in orders
    then Represents(limit, orders[client], Accepted(limit, calls, client), Latest(calls))
    else Accepted(limit, calls, client) == []
  }

  /** The deques a run of calls leaves behind. */
  ghost predicate Consistent(limit: Limit, orders: map<string, seq<real>>, calls: seq<Call>) {
    ClockRuns(calls) && forall c :: DequeFits(limit, orders, calls, c)
  }

  function DequeOf(orders: map<string, seq<real>>, client: string): seq<real> {
    if client in orders then orders[client] else []
  }

  /** The client's deque after a call. */
  function Stepped(limit: Limit, deque: seq<real>, now: real): seq<real> {
    var times := Pruned(limit, deque, now);
    if |times| < limit.count then times + [now] else times
  }

  lemma DequePruned(limit: Limit, orders: map<string, seq<real>>, calls: seq<Call>, client: string, now: real)
    requires ClockRuns(calls) && DequeFits(limit, orders, calls, client) && (calls == [] || Latest(calls) <= now)
    ensures var accepted, times := Accepted(limit, calls, client), Pruned(limit, DequeOf(orders, client), now);
            Represents(limit, times, accepted, now) && times == Recent(limit, accepted, now)
  {
    AcceptedSorted(limit, calls, client);
    var accepted := Accepted(limit, calls, client);
    PrunedRepresents(limit, DequeOf(orders, client), accepted, if calls == [] then now else Latest(calls), now);
  }

  lemma OwnDequeFits(limit: Limit, orders: map<string, seq<real>>, calls: seq<Call>, client: string, now: real)
    requires ClockRuns(calls) && DequeFits(limit, orders, calls, client) && (calls == [] || Latest(calls) <= now)
    ensures var after := orders[client := Stepped(limit, DequeOf(orders, client), now)];
            DequeFits(limit, after, calls + [Call(client, now)], client)
  {
    var accepted, times := Accepted(limit, calls, client), Pruned(limit, DequeOf(orders, client), now);
    DequePruned(limit, orders, calls, client, now);
    AppendCall(limit, calls, client, now);
    if |times| < limit.count {
      AppendRepresents(limit, times, accepted, now);
    }
  }

  lemma OtherDequeFits(
    limit: Limit, orders: map<string, seq<real>>, calls: seq<Call>, call: Call, times: seq<real>, client: string)
    requires DequeFits(limit, orders, calls, client) && client != call.client
    requires calls == [] || Latest(calls) <= call.now
    ensures DequeFits(limit, orders[call.client := times], calls + [call], client)
  {
    OtherClientUnmoved(limit, calls, call, client);
    if calls == [] {
      assert Accepted(limit, calls, client) == [];
    }
  }

  lemma StepKeepsConsistent(limit: Limit, orders: map<string, seq<real>>, calls: seq<Call>, client: string, now: real)
    requires Consistent(limit, orders, calls) && (calls == [] || Latest(calls) <= now)
    ensures var after := orders[client := Stepped(limit, DequeOf(orders, client), now)];
            Consistent(limit, after, calls + [Call(client, now)])
  {
    var orders', call := orders[client := Stepped(limit, DequeOf(orders, client), now)], Call(client, now);
    forall c ensures DequeFits(limit, orders', calls + [call], c) {
      assert DequeFits(limit, orders, calls, c);
      if c == client {
        OwnDequeFits(limit, orders, calls, client, now);
      } else {
        OtherDequeFits(limit, orders, calls, call, orders'[client], c);
      }
    }
  }

  lemma StepBounded(limit: Limit, orders: map<string, seq<real>>, calls: seq<Call>, client: string, now: real)
    requires Consistent(limit, orders, calls) && (calls == [] || Latest(calls) <= now)
    ensures |Stepped(limit, DequeOf(orders, client), now)| <= Max(limit.count, 0)
    ensures Pruned(limit, DequeOf(orders, client), now) == Recent(limit, Accepted(limit, calls, client), now)
  {
    assert DequeFits(limit, orders, calls, client);
    DequePruned(limit, orders, calls, client, now);
  }

  class OrderRateLimiter {
    const limit: Limit
    var orders: map<string, seq<real>>
    /** Every call so far. */
    ghost var calls: seq<Call>

    ghost predicate Valid()
      reads this
    {
      Consistent(limit, orders, calls)
    }

    constructor (limit: Limit)
      ensures Valid() && this.limit == limit && calls == []
    {
      this.limit, orders, calls := limit, map[], [];
    }

    /** Prune the client's deque, then accept while it has room; the answer says how long to wait otherwise. */
    method Check(client: string, now: real) returns (answer: RateCheck)
      requires Valid() && (calls == [] || Latest(calls) <= now)
      modifies this
      ensures Valid() && calls == old(calls) + [Call(client, now)]
      ensures answer == Decide(limit, Accepted(limit, old(calls), client), now)
      ensures orders == old(orders)[client := Stepped(limit, DequeOf(old(orders), client), now)]
      ensures client in orders && |orders[client]| <= Max(limit.count, 0)
    {
      StepBounded(limit, orders, calls, client, now);
      StepKeepsConsistent(limit, orders, calls, client, now);
      var times := PopExpired(DequeOf(orders, client), now);
      if |times| < limit.count {
        times := times + [now];
        answer := Allowed;
      } else if times == [] {
        answer := Broken;
      } else {
        answer := Refused(Max(1, Round(limit.window as real - (now - times[0]))));
      }
      orders := orders[client := times];
      calls := calls + [Call(client, now)];
    }

    /** The loop of `check`: drop the times that have left the window. */
    method PopExpired(deque: seq<real>, now: real) returns (times: seq<real>)
      ensures times == Pruned(limit, deque, now)
    {
      times := deque;
      while times != [] && now - times[0] >= limit.window as real
        invariant Pruned(limit, times, now) == Pruned(limit, deque, now)
        decreases |times|
      {
        times := times[1..];
      }
    }
  }

  lemma AppendCall(limit: Limit, calls: seq<Call>, client: string, now: real)
    ensures Accepted(limit, calls + [Call(client, now)], client)
         == if Decide(limit, Accepted(limit, calls, client), now) == Allowed
            then Accepted(limit, calls, client) + [now] else Accepted(limit, calls, client)
  {
    assert (calls + [Call(client, now)])[..|calls|] == calls;
  }

  lemma OtherClientUnmoved(limit: Limit, calls: seq<Call>, call: Call, client: string)
    requires call.client != client
    ensures Accepted(limit, calls + [call], client) == Accepted(limit, calls, client)
  {
    assert (calls + [call])[..|calls|] == calls;
  }

  lemma AppendRepresents(limit: Limit, deque: seq<real>, accepted: seq<real>, now: real)
    requires Represents(limit, deque, accepted, now) && |deque| < limit.count
    ensures Represents(limit, deque + [now], accepted + [now], now)
  {
    assert (accepted + [now])[|accepted| - |deque|..] == deque + [now];
  }

  // ---------- the bound over whole runs ----------

  /** How many of `times` fall in the half-open window [from, from + window). */
  function InWindow(limit: Limit, times: seq<real>, from: real): nat {
    if times == [] then 0
    else (if from <= times[|times| - 1] < from + limit.window as real then 1 else 0)
         + InWindow(limit, times[..|times| - 1], from)
  }

  lemma {:induction false} RecentCountsMore(limit: Limit, times: seq<real>, from: real, now: real)
    requires forall i :: 0 <= i < |times| ==> times[i] <= now
    requires now < from + limit.window as real
    ensures InWindow(limit, times, from) <= |Recent(limit, times, now)|
  {
    if times != [] {
      var n := |times| - 1;
      RecentCountsMore(limit, times[..n], from, now);
      RecentSnoc(limit, times[..n], times[n], now);
      assert times[..n] + [times[n]] == times;
    }
  }

  lemma {:induction false} RecentSnoc(limit: Limit, times: seq<real>, t: real, now: real)
    ensures Recent(limit, times + [t], now)
         == Recent(limit, times, now) + (if now - t >= limit.window as real then [] else [t])
  {
    if times == [] {
      assert times + [t] == [t];
    } else {
      assert (times + [t])[1..] == times[1..] + [t];
      RecentSnoc(limit, times[1..], t, now);
    }
  }

  /** In any run any window holds at most `count` accepted orders of one client. */
  lemma {:induction false} WindowHoldsAtMostCount(limit: Limit, calls: seq<Call>, client: string, from: real)
    requires ClockRuns(calls)
    ensures InWindow(limit, Accepted(limit, calls, client), from) <= Max(limit.count, 0)
  {
    if calls != [] {
      var n := |calls| - 1;
      WindowHoldsAtMostCount(limit, calls[..n], client, from);
      var before, last := Accepted(limit, calls[..n], client), calls[n];
      if last.client == client && Decide(limit, before, last.now) == Allowed {
        assert (before + [last.now])[..|before|] == before;
        if from <= last.now < from + limit.window as real {
          AcceptedSorted(limit, calls[..n], client);
          RecentCountsMore(limit, before, from, last.now);
        }
      }
    }
  }

  // ---------- only the client's own accepted orders matter ----------

  /** The calls of a run that a mask keeps. */
  function Kept(calls: seq<Call>, mask: seq<bool>): seq<Call>
    requires |calls| == |mask|
  {
    if calls == [] then [] else
      Kept(calls[..|calls| - 1], mask[..|mask| - 1])
      + (if mask[|mask| - 1] then [calls[|calls| - 1]] else [])
  }

  /** Only refused calls and calls of other clients are deleted. */
  ghost predicate KeepsAccepted(limit: Limit, calls: seq<Call>, mask: seq<bool>, client: string) {
    && |calls| == |mask|
    && forall i ::
         && 0 <= i < |calls| && calls[i].client == client
         && Decide(limit, Accepted(limit, calls[..i], client), calls[i].now) == Allowed
         ==> mask[i]
  }

  /** Deleting refused and foreign calls leaves the accepted orders, hence every further decision, as it was. */
  lemma {:induction false} DecisionsDependOnAcceptedOnly(
    limit: Limit, calls: seq<Call>, mask: seq<bool>, client: string, now: real)
    requires KeepsAccepted(limit, calls, mask, client)
    ensures Accepted(limit, Kept(calls, mask), client) == Accepted(limit, calls, client)
    ensures Decide(limit, Accepted(limit, Kept(calls, mask), client), now)
         == Decide(limit, Accepted(limit, calls, client), now)
  {
    if calls != [] {
      var n := |calls| - 1;
      forall i | 0 <= i < n ensures calls[..n][..i] == calls[..i] {
      }
      assert KeepsAccepted(limit, calls[..n], mask[..n], client);
      DecisionsDependOnAcceptedOnly(limit, calls[..n], mask[..n], client, calls[n].now);
      var shorter := Kept(calls[..n], mask[..n]);
      if mask[n] {
        assert (shorter + [calls[n]])[..|shorter|] == shorter;
      } else {
        assert shorter + [] == shorter;
      }
    }
  }

  // ---------- the advertised wait ----------

  lemma {:induction false} RecentHeadIsYoung(limit: Limit, times: seq<real>, now: real)
    requires Recent(limit, times, now) != []
    ensures now - Recent(limit, times, now)[0] < limit.window as real
    ensures Recent(limit, times, now)[0] in times
  {
    if now - times[0] >= limit.window as real {
      RecentHeadIsYoung(limit, times[1..], now);
    }
  }

  /** A refusal asks for between one second and the window (at least one second). */
  lemma RetryIsWithinTheWindow(limit: Limit, accepted: seq<real>, now: real)
    requires Decide(limit, accepted, now).Refused? && forall i :: 0 <= i < |accepted| ==> accepted[i] <= now
    ensures 1 <= Decide(limit, accepted, now).retryAfter <= Max(1, limit.window)
  {
    RecentHeadIsYoung(limit, accepted, now);
    RoundUpTo(limit.window as real - (now - Recent(limit, accepted, now)[0]), limit.window);
  }

  lemma RoundUpTo(x: real, bound: int)
    requires x <= bound as real
    ensures Round(x) <= bound
  {
  }

  /** The seconds a refused call still has to wait. */
  function TrueWait(limit: Limit, accepted: seq<real>, now: real): real
    requires Recent(limit, accepted, now) != []
  {
    limit.window as real - (now - Recent(limit, accepted, now)[0])
  }

  lemma {:induction false} RecentLater(limit: Limit, times: seq<real>, now: real, later: real)
    requires now <= later
    ensures Recent(limit, Recent(limit, times, now), later) == Recent(limit, times, later)
  {
    if times != [] {
      RecentLater(limit, times[1..], now, later);
      if now - times[0] >= limit.window as real {
        assert [] + Recent(limit, times[1..], now) == Recent(limit, times[1..], now);
        assert [] + Recent(limit, times[1..], later) == Recent(limit, times[1..], later);
      } else {
        var rest := Recent(limit, times[1..], now);
        assert ([times[0]] + rest)[1..] == rest;
      }
    }
  }

  lemma {:induction false} RecentNoLonger(limit: Limit, times: seq<real>, now: real)
    ensures |Recent(limit, times, now)| <= |times|
    ensures times != [] && now - times[0] >= limit.window as real ==> |Recent(limit, times, now)| < |times|
  {
    if times != [] {
      RecentNoLonger(limit, times[1..], now);
    }
  }

  /**
   After a refusal, with nothing accepted in between, a later call is allowed exactly when the true
   wait has passed. (At most `count` accepted orders are recent; that is WindowHoldsAtMostCount.)
   */
  lemma AllowedAgainExactlyAfterTrueWait(limit: Limit, accepted: seq<real>, now: real, later: real)
    requires Decide(limit, accepted, now).Refused? && now <= later && Sorted(accepted)
    requires |Recent(limit, accepted, now)| <= limit.count
    ensures Decide(limit, accepted, later) == Allowed <==> later - now >= TrueWait(limit, accepted, now)
  {
    var recent := Recent(limit, accepted, now);
    RecentLater(limit, accepted, now, later);
    RecentSorted(limit, accepted, now);
    if later - recent[0] >= limit.window as real {
      RecentNoLonger(limit, recent, later);
    } else {
      RecentAll(limit, recent, later);
    }
  }

  lemma {:induction false} RecentSorted(limit: Limit, times: seq<real>, now: real)
    requires Sorted(times)
    ensures Sorted(Recent(limit, times, now))
    ensures forall t :: t in Recent(limit, times, now) ==> t in times
  {
    if times != [] {
      RecentSorted(limit, times[1..], now);
      var rest := Recent(limit, times[1..], now);
      forall k | 0 <= k < |rest| ensures times[0] <= rest[k] && rest[k] in times {
        assert rest[k] in rest;
        assert rest[k] in times[1..];
        var i :| 0 <= i < |times[1..]| && times[1..][i] == rest[k];
        assert times[i + 1] == rest[k];
      }
    }
  }

  /** In a run at most `count` orders are recent, so the exact wait applies to every refusal of a run. */
  lemma {:induction false} RecentAtMostCount(limit: Limit, calls: seq<Call>, client: string, now: real)
    requires ClockRuns(calls) && (calls != [] ==> calls[|calls| - 1].now <= now)
    ensures |Recent(limit, Accepted(limit, calls, client), now)| <= Max(limit.count, 0)
  {
    if calls != [] {
      var n := |calls| - 1;
      RecentAtMostCount(limit, calls[..n], client, now);
      var before, last := Accepted(limit, calls[..n], client), calls[n];
      if last.client == client && Decide(limit, before, last.now) == Allowed {
        RecentLater(limit, before, last.now, now);
        RecentNoLonger(limit, Recent(limit, before, last.now), now);
        RecentSnoc(limit, before, last.now, now);
      }
    }
  }

  /** Half a second on top of the advertised wait is always enough. */
  lemma RetryPlusHalfIsEnough(limit: Limit, calls: seq<Call>, client: string, now: real, later: real)
    requires ClockRuns(calls) && (calls != [] ==> calls[|calls| - 1].now <= now)
    requires Decide(limit, Accepted(limit, calls, client), now).Refused?
    requires later >= now + Decide(limit, Accepted(limit, calls, client), now).retryAfter as real + 0.5
    ensures Decide(limit, Accepted(limit, calls, client), later) == Allowed
  {
    var accepted := Accepted(limit, calls, client);
    AcceptedSorted(limit, calls, client);
    RecentAtMostCount(limit, calls, client, now);
    AllowedAgainExactlyAfterTrueWait(limit, accepted, now, later);
  }

  /** The advertised wait is at least a second, and otherwise within half a second of the true one. */
  lemma RetryIsNearTheTrueWait(limit: Limit, accepted: seq<real>, now: real)
    requires Decide(limit, accepted, now).Refused?
    ensures var retry, wait := Decide(limit, accepted, now).retryAfter, TrueWait(limit, accepted, now);
            retry >= 1 && ((retry == 1 && wait <= 1.5) || wait - 0.5 <= retry as real <= wait + 0.5)
  {
  }

  /** The accepted times that have not left the window. */
  function Young(limit: Limit, accepted: seq<real>, now: real): set<nat> {
    set i: nat | i < |accepted| && now - accepted[i] < limit.window as real
  }

  lemma {:induction false} YoungAreRecent(limit: Limit, accepted: seq<real>, now: real)
    ensures |Young(limit, accepted, now)| == |Recent(limit, accepted, now)|
  {
    if accepted != [] {
      var n := |accepted| - 1;
      var before, last := accepted[..n], accepted[n];
      YoungAreRecent(limit, before, now);
      RecentAppend(limit, before, last, now);
      assert accepted == before + [last];
      assert forall i: nat :: i < n ==> accepted[i] == before[i];
      if now - last < limit.window as real {
        assert Young(limit, accepted, now) == Young(limit, before, now) + {n};
      } else {
        assert Young(limit, accepted, now) == Young(limit, before, now);
      }
    }
  }

  lemma {:induction false} RecentAppend(limit: Limit, times: seq<real>, last: real, now: real)
    ensures Recent(limit, times + [last], now)
         == Recent(limit, times, now) + if now - last < limit.window as real then [last] else []
  {
    if times == [] {
      assert times + [last] == [last];
      assert [last][1..] == [];
    } else {
      assert (times + [last])[1..] == times[1..] + [last];
      RecentAppend(limit, times[1..], last, now);
    }
  }

  /**
   A call is allowed exactly when fewer than `count` of the client's accepted orders are younger than the
   window; a refusal waits for the first of them, and a limit below one has none to look at.
   */
  lemma AllowedIff(limit: Limit, accepted: seq<real>, now: real)
    ensures Decide(limit, accepted, now) == Allowed <==> |Young(limit, accepted, now)| < limit.count
    ensures Decide(limit, accepted, now) == Broken <==>
      limit.count <= 0 && forall i :: 0 <= i < |accepted| ==> now - accepted[i] >= limit.window as real
    ensures Decide(limit, accepted, now).Refused? && Sorted(accepted) ==>
      forall i :: 0 <= i < |accepted| && now - accepted[i] < limit.window as real ==>
        TrueWait(limit, accepted, now) <= limit.window as real - (now - accepted[i])
  {
    YoungAreRecent(limit, accepted, now);
    NoneYoungIff(limit, accepted, now);
    if Decide(limit, accepted, now).Refused? && Sorted(accepted) {
      forall i | 0 <= i < |accepted| && now - accepted[i] < limit.window as real
        ensures Recent(limit, accepted, now)[0] <= accepted[i]
      {
        FirstRecentIsOldest(limit, accepted, now, i);
      }
    }
  }

  lemma {:induction false} NoneYoungIff(limit: Limit, accepted: seq<real>, now: real)
    ensures Recent(limit, accepted, now) == []
            <==> forall i :: 0 <= i < |accepted| ==> now - accepted[i] >= limit.window as real
  {
    if accepted != [] {
      NoneYoungIff(limit, accepted[1..], now);
      assert forall i :: 1 <= i < |accepted| ==> accepted[i] == accepted[1..][i - 1];
    }
  }

  lemma {:induction false} FirstRecentIsOldest(limit: Limit, accepted: seq<real>, now: real, i: nat)
    requires Sorted(accepted) && i < |accepted| && now - accepted[i] < limit.window as real
    ensures Recent(limit, accepted, now) != [] && Recent(limit, accepted, now)[0] <= accepted[i]
  {
    if now - accepted[0] >= limit.window as real {
      FirstRecentIsOldest(limit, accepted[1..], now, i - 1);
    }
  }

  /** The waits that rounding half to even does not shorten below their length: up to one second, or rounded up. */
  predicate NotShortened(wait: real) {
    var whole := wait.Floor;
    var part := wait - whole as real;
    wait <= 1.0 || part == 0.0 || part > 0.5 || (part == 0.5 && whole % 2 == 1)
  }

  lemma RoundedUpIff(wait: real)
    ensures wait <= Max(1, Round(wait)) as real <==> NotShortened(wait)
  {
  }

  /**
   The advertised wait alone is enough exactly when the true wait is at most a second, a whole number, or
   past the half: its fraction above 1/2, or exactly 1/2 over an odd number.
   */
  lemma RetryAloneIsEnoughIff(limit: Limit, calls: seq<Call>, client: string, now: real)
    requires ClockRuns(calls) && (calls != [] ==> calls[|calls| - 1].now <= now)
    requires Decide(limit, Accepted(limit, calls, client), now).Refused?
    ensures var accepted := Accepted(limit, calls, client);
            Decide(limit, accepted, now + Decide(limit, accepted, now).retryAfter as real) == Allowed
            <==> NotShortened(TrueWait(limit, accepted, now))
  {
    var accepted := Accepted(limit, calls, client);
    AcceptedSorted(limit, calls, client);
    RecentAtMostCount(limit, calls, client, now);
    AllowedAgainExactlyAfterTrueWait(limit, accepted, now, now + Decide(limit, accepted, now).retryAfter as real);
    RoundedUpIff(TrueWait(limit, accepted, now));
  }

  /** One order per 5 seconds: refused 2.5 s in with "2 seconds", and refused again after exactly 2. */
  lemma RetryCanBeTooShort()
    ensures var limit := Limit(1, 5);
            && Decide(limit, [0.0], 2.5) == Refused(2)
            && Decide(limit, [0.0], 4.5).Refused?
  {
    var limit := Limit(1, 5);
    RecentAll(limit, [0.0], 2.5);
    RecentAll(limit, [0.0], 4.5);
    assert Round(2.5) == 2;
  }
}
