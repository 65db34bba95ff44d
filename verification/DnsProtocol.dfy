/**
 Concurrent `upsert_record` calls of one DnsClient against a server that replaces a whole zone.
 Between two awaits a call runs alone, so a step is: take the write lock, complete or fail the
 read, complete or fail the write (releasing the lock). A failed write may still have been applied
 by the server, its reply lost. Any number of calls, for any domains, in any interleaving.
 */
module DnsProtocol {
  import opened Wrappers
  import opened DnsForm

  type Zone = (string, string)

  datatype Upsert = Upsert(domain: string, record: DnsRecord)

  datatype Phase = Waiting | Locked | HasRead(current: seq<DnsRecord>) | Returned | Raised

  /** `acquired` lists the calls in lock order; `applied` holds those whose write the server carried out. */
  datatype State = State(zones: map<Zone, seq<RawHost>>, lock: Option<nat>, phases: seq<Phase>,
                         acquired: seq<nat>, applied: set<nat>)

  datatype Step =
    | Acquire(id: nat)
    | GetOk(id: nat)
    | GetFail(id: nat)
    | SetOk(id: nat)
    | SetLost(id: nat)
    | SetRefused(id: nat)

  // ---------- records ----------

  function KeyOf(r: DnsRecord): (string, RecordType) {
    (r.host, r.rtype)
  }

  function Without(zone: seq<DnsRecord>, keys: set<(string, RecordType)>): seq<DnsRecord> {
    if zone == [] then []
    else (if KeyOf(zone[0]) in keys then [] else [zone[0]]) + Without(zone[1..], keys)
  }

  /** The records of one host and type, in order. */
  function RecordsAt(zone: seq<DnsRecord>, host: string, rtype: RecordType): seq<DnsRecord> {
    if zone == [] then []
    else (if zone[0].host == host && zone[0].rtype == rtype then [zone[0]] else []) + RecordsAt(zone[1..], host, rtype)
  }

  /** What one upsert writes: the other records in order, then the new one. */
  function Upserted(zone: seq<DnsRecord>, r: DnsRecord): seq<DnsRecord> {
    Without(zone, {KeyOf(r)}) + [r]
  }

  /** The sequential fold of a list of upserts. */
  function Fold(zone: seq<DnsRecord>, records: seq<DnsRecord>): seq<DnsRecord> {
    if records == [] then zone
    else Upserted(Fold(zone, records[..|records| - 1]), records[|records| - 1])
  }

  // ---------- the machine ----------

  ghost function Sent(op: Upsert, current: seq<DnsRecord>): Form
    requires SplitDomain(op.domain).Some?
  {
    Encode(SplitDomain(op.domain).value, Upserted(current, op.record))
  }

  ghost predicate Enabled(ops: seq<Upsert>, s: State, step: Step) {
    && step.id < |ops| == |s.phases|
    && var op, phase, zone := ops[step.id], s.phases[step.id], SplitDomain(ops[step.id].domain);
       match step
       case Acquire(_) => phase == Waiting && s.lock == None
       case GetOk(_) => phase == Locked && zone.Some? && zone.value in s.zones && ParseZone(s.zones[zone.value]).Some?
       case GetFail(_) => phase == Locked
       case SetOk(_) => phase.HasRead? && zone.Some? && Decode(Sent(op, phase.current), 1).Some?
       case SetLost(_) => phase.HasRead? && zone.Some? && Decode(Sent(op, phase.current), 1).Some?
       case SetRefused(_) => phase.HasRead?
  }

  ghost function Written(ops: seq<Upsert>, s: State, id: nat): State
    requires id < |ops| == |s.phases| && s.phases[id].HasRead? && SplitDomain(ops[id].domain).Some?
    requires Decode(Sent(ops[id], s.phases[id].current), 1).Some?
  {
    var hosts := Decode(Sent(ops[id], s.phases[id].current), 1).value;
    s.(zones := s.zones[SplitDomain(ops[id].domain).value := hosts], applied := s.applied + {id})
  }

  /** The call is over: the lock is free again. */
  function Finished(s: State, id: nat, phase: Phase): State
    requires id < |s.phases|
  {
    s.(lock := None, phases := s.phases[id := phase])
  }

  ghost function Next(ops: seq<Upsert>, s: State, step: Step): State
    requires Enabled(ops, s, step)
  {
    var id := step.id;
    match step
    case Acquire(_) => s.(lock := Some(id), phases := s.phases[id := Locked], acquired := s.acquired + [id])
    case GetOk(_) =>
      s.(phases := s.phases[id := HasRead(ParseZone(s.zones[SplitDomain(ops[id].domain).value]).value)])
    case GetFail(_) => Finished(s, id, Raised)
    case SetOk(_) => Finished(Written(ops, s, id), id, Returned)
    case SetLost(_) => Finished(Written(ops, s, id), id, Raised)
    case SetRefused(_) => Finished(s, id, Raised)
  }

  function Init(ops: seq<Upsert>, zones: map<Zone, seq<RawHost>>): State {
    State(zones, None, seq(|ops|, _ => Waiting), [], {})
  }

  /** The state after a run, or None when some step of it cannot happen. */
  ghost function Exec(ops: seq<Upsert>, zones: map<Zone, seq<RawHost>>, run: seq<Step>): Option<State> {
    if run == [] then Some(Init(ops, zones)) else
      var before := Exec(ops, zones, run[..|run| - 1]);
      if before.Some? && Enabled(ops, before.value, run[|run| - 1])
      then Some(Next(ops, before.value, run[|run| - 1]))
      else None
  }

  /** The records of the applied upserts to one zone, in lock order. */
  function History(ops: seq<Upsert>, acquired: seq<nat>, applied: set<nat>, zone: Zone): seq<DnsRecord> {
    if acquired == [] then [] else
      var id, rest := acquired[|acquired| - 1], History(ops, acquired[..|acquired| - 1], applied, zone);
      if id in applied && id < |ops| && SplitDomain(ops[id].domain) == Some(zone)
      then rest + [ops[id].record]
      else rest
  }

  // ---------- the invariant ----------

  predicate Busy(p: Phase) {
    p.Locked? || p.HasRead?
  }

  ghost predicate LockInv(s: State) {
    && (forall id :: 0 <= id < |s.phases| ==> (Busy(s.phases[id]) <==> s.lock == Some(id)))
    && (s.lock.Some? ==> s.lock.value < |s.phases|)
  }

  ghost predicate OrderInv(s: State) {
    && (forall i, j :: 0 <= i < j < |s.acquired| ==> s.acquired[i] != s.acquired[j])
    && (forall i :: 0 <= i < |s.acquired| ==> s.acquired[i] < |s.phases| && s.phases[s.acquired[i]] != Waiting)
    && (s.lock.Some? ==> s.acquired != [] && s.acquired[|s.acquired| - 1] == s.lock.value)
  }

  ghost predicate AppliedInv(s: State) {
    && (forall id :: id in s.applied ==> id < |s.phases| && (s.phases[id] == Returned || s.phases[id] == Raised))
    && (forall id :: id in s.applied ==> id in s.acquired)
    && (forall id :: 0 <= id < |s.phases| && s.phases[id] == Returned ==> id in s.applied)
  }

  /** A call that has read holds the zone's present records. */
  ghost predicate ReadInv(ops: seq<Upsert>, s: State) {
    forall id :: 0 <= id < |s.phases| == |ops| && s.phases[id].HasRead? ==>
      var zone := SplitDomain(ops[id].domain);
      zone.Some? && zone.value in s.zones && ParseZone(s.zones[zone.value]) == Some(s.phases[id].current)
  }

  /** One zone, against what it held at the start. */
  ghost predicate ZoneInv(ops: seq<Upsert>, before: seq<RawHost>, s: State, zone: Zone)
    requires zone in s.zones
  {
    if ParseZone(before).Some?
    then ParseZone(s.zones[zone]) == Some(Fold(ParseZone(before).value, History(ops, s.acquired, s.applied, zone)))
    else s.zones[zone] == before && History(ops, s.acquired, s.applied, zone) == []
  }

  ghost predicate Inv(ops: seq<Upsert>, zones: map<Zone, seq<RawHost>>, s: State) {
    && |s.phases| == |ops|
    && LockInv(s) && OrderInv(s) && AppliedInv(s) && ReadInv(ops, s)
    && s.zones.Keys == zones.Keys
    && forall zone :: zone in s.zones ==> ZoneInv(ops, zones[zone], s, zone)
  }

  lemma {:induction false} HistoryFrame(ops: seq<Upsert>, acquired: seq<nat>, applied: set<nat>, id: nat, zone: Zone)
    requires id !in acquired
    ensures History(ops, acquired, applied + {id}, zone) == History(ops, acquired, applied, zone)
  {
    if acquired != [] {
      HistoryFrame(ops, acquired[..|acquired| - 1], applied, id, zone);
    }
  }

  lemma HistoryApplied(ops: seq<Upsert>, acquired: seq<nat>, applied: set<nat>, id: nat, zone: Zone)
    requires id < |ops| && id !in applied
    requires acquired != [] && acquired[|acquired| - 1] == id && id !in acquired[..|acquired| - 1]
    ensures History(ops, acquired, applied + {id}, zone)
         == History(ops, acquired, applied, zone)
            + (if SplitDomain(ops[id].domain) == Some(zone) then [ops[id].record] else [])
  {
    HistoryFrame(ops, acquired[..|acquired| - 1], applied, id, zone);
  }

  lemma HistoryAcquired(ops: seq<Upsert>, acquired: seq<nat>, applied: set<nat>, id: nat, zone: Zone)
    requires id !in applied
    ensures History(ops, acquired + [id], applied, zone) == History(ops, acquired, applied, zone)
  {
    assert (acquired + [id])[..|acquired|] == acquired;
  }

  lemma FoldSnoc(zone: seq<DnsRecord>, records: seq<DnsRecord>, r: DnsRecord)
    ensures Fold(zone, records + [r]) == Upserted(Fold(zone, records), r)
  {
    assert (records + [r])[..|records|] == records;
  }

  lemma InitInv(ops: seq<Upsert>, zones: map<Zone, seq<RawHost>>)
    ensures Inv(ops, zones, Init(ops, zones))
  {
  }

  lemma AcquireKeeps(ops: seq<Upsert>, zones: map<Zone, seq<RawHost>>, s: State, id: nat)
    requires Inv(ops, zones, s) && Enabled(ops, s, Acquire(id))
    ensures Inv(ops, zones, Next(ops, s, Acquire(id)))
  {
    var t := Next(ops, s, Acquire(id));
    assert forall i :: 0 <= i < |s.acquired| ==> t.acquired[i] == s.acquired[i];
    forall zone | zone in t.zones ensures ZoneInv(ops, zones[zone], t, zone) {
      assert ZoneInv(ops, zones[zone], s, zone);
      HistoryAcquired(ops, s.acquired, s.applied, id, zone);
    }
  }

  lemma ReadKeeps(ops: seq<Upsert>, zones: map<Zone, seq<RawHost>>, s: State, id: nat)
    requires Inv(ops, zones, s) && Enabled(ops, s, GetOk(id))
    ensures Inv(ops, zones, Next(ops, s, GetOk(id)))
  {
    var t := Next(ops, s, GetOk(id));
    forall zone | zone in t.zones ensures ZoneInv(ops, zones[zone], t, zone) {
      assert ZoneInv(ops, zones[zone], s, zone);
    }
  }

  lemma FailKeeps(ops: seq<Upsert>, zones: map<Zone, seq<RawHost>>, s: State, id: nat)
    requires Inv(ops, zones, s) && id < |ops| && Busy(s.phases[id])
    ensures Inv(ops, zones, Finished(s, id, Raised))
  {
    var t := Finished(s, id, Raised);
    forall zone | zone in t.zones ensures ZoneInv(ops, zones[zone], t, zone) {
      assert ZoneInv(ops, zones[zone], s, zone);
    }
  }

  /** The write of a call that holds the lock: its zone takes one more fold step, the others none. */
  lemma WriteZones(ops: seq<Upsert>, zones: map<Zone, seq<RawHost>>, s: State, id: nat, zone: Zone)
    requires Inv(ops, zones, s) && Enabled(ops, s, SetOk(id)) && zone in s.zones
    ensures var t := Written(ops, s, id); zone in t.zones && ZoneInv(ops, zones[zone], t, zone)
  {
    var t, op, current := Written(ops, s, id), ops[id], s.phases[id].current;
    assert s.lock == Some(id) && id !in s.applied;
    assert id !in s.acquired[..|s.acquired| - 1];
    assert ZoneInv(ops, zones[zone], s, zone);
    HistoryApplied(ops, s.acquired, s.applied, id, zone);
    var past := History(ops, s.acquired, s.applied, zone);
    if SplitDomain(op.domain) == Some(zone) {
      DecodeEncode(zone, Upserted(current, op.record));
      assert ParseZone(t.zones[zone]) == Some(Upserted(current, op.record));
      assert ParseZone(zones[zone]).Some?;
      FoldSnoc(ParseZone(zones[zone]).value, past, op.record);
    } else {
      assert past + [] == past;
    }
  }

  lemma WriteKeepsBooks(ops: seq<Upsert>, zones: map<Zone, seq<RawHost>>, s: State, id: nat, phase: Phase)
    requires Inv(ops, zones, s) && Enabled(ops, s, SetOk(id)) && (phase == Returned || phase == Raised)
    ensures var t := Finished(Written(ops, s, id), id, phase);
            LockInv(t) && OrderInv(t) && AppliedInv(t) && ReadInv(ops, t)
  {
    WriteFreesLock(ops, zones, s, id, phase);
    WriteIsApplied(ops, s, id, phase);
  }

  lemma WriteFreesLock(ops: seq<Upsert>, zones: map<Zone, seq<RawHost>>, s: State, id: nat, phase: Phase)
    requires Inv(ops, zones, s) && Enabled(ops, s, SetOk(id)) && (phase == Returned || phase == Raised)
    ensures var t := Finished(Written(ops, s, id), id, phase);
            && LockInv(t) && OrderInv(t) && ReadInv(ops, t)
            && forall k :: 0 <= k < |t.phases| ==> !Busy(t.phases[k])
  {
    assert s.lock == Some(id) && s.acquired[|s.acquired| - 1] == id;
    var t := Finished(Written(ops, s, id), id, phase);
    assert t.phases == s.phases[id := phase] && t.acquired == s.acquired;
  }

  lemma WriteIsApplied(ops: seq<Upsert>, s: State, id: nat, phase: Phase)
    requires |s.phases| == |ops| && LockInv(s) && OrderInv(s) && AppliedInv(s)
    requires Enabled(ops, s, SetOk(id)) && (phase == Returned || phase == Raised)
    ensures AppliedInv(Finished(Written(ops, s, id), id, phase))
  {
    assert s.lock == Some(id) && s.acquired[|s.acquired| - 1] == id;
    var t := Finished(Written(ops, s, id), id, phase);
    assert t.phases == s.phases[id := phase] && t.acquired == s.acquired && t.applied == s.applied + {id};
  }

  lemma WriteKeeps(ops: seq<Upsert>, zones: map<Zone, seq<RawHost>>, s: State, id: nat, phase: Phase)
    requires Inv(ops, zones, s) && Enabled(ops, s, SetOk(id)) && (phase == Returned || phase == Raised)
    ensures Inv(ops, zones, Finished(Written(ops, s, id), id, phase))
  {
    WriteKeepsBooks(ops, zones, s, id, phase);
    var t := Finished(Written(ops, s, id), id, phase);
    assert t.zones.Keys == s.zones.Keys;
    forall zone | zone in t.zones ensures ZoneInv(ops, zones[zone], t, zone) {
      WriteZones(ops, zones, s, id, zone);
    }
  }

  lemma NextKeepsInv(ops: seq<Upsert>, zones: map<Zone, seq<RawHost>>, s: State, step: Step)
    requires Inv(ops, zones, s) && Enabled(ops, s, step)
    ensures Inv(ops, zones, Next(ops, s, step))
  {
    match step {
      case Acquire(id) => AcquireKeeps(ops, zones, s, id);
      case GetOk(id) => ReadKeeps(ops, zones, s, id);
      case GetFail(id) => FailKeeps(ops, zones, s, id);
      case SetOk(id) => WriteKeeps(ops, zones, s, id, Returned);
      case SetLost(id) => WriteKeeps(ops, zones, s, id, Raised);
      case SetRefused(id) => FailKeeps(ops, zones, s, id);
    }
  }

  lemma {:induction false} RunInv(ops: seq<Upsert>, zones: map<Zone, seq<RawHost>>, run: seq<Step>)
    ensures Exec(ops, zones, run).Some? ==> Inv(ops, zones, Exec(ops, zones, run).value)
  {
    if run == [] {
      InitInv(ops, zones);
    } else {
      var before := Exec(ops, zones, run[..|run| - 1]);
      RunInv(ops, zones, run[..|run| - 1]);
      if before.Some? && Enabled(ops, before.value, run[|run| - 1]) {
        NextKeepsInv(ops, zones, before.value, run[|run| - 1]);
      }
    }
  }

  // ---------- what every run keeps ----------

  /** Every zone that could be read at the start is the fold of the applied upserts in lock order. */
  lemma ZoneIsFoldInLockOrder(ops: seq<Upsert>, zones: map<Zone, seq<RawHost>>, run: seq<Step>, zone: Zone)
    requires Exec(ops, zones, run).Some? && zone in zones && ParseZone(zones[zone]).Some?
    ensures var s := Exec(ops, zones, run).value;
            && zone in s.zones
            && ParseZone(s.zones[zone])
               == Some(Fold(ParseZone(zones[zone]).value, History(ops, s.acquired, s.applied, zone)))
  {
    RunInv(ops, zones, run);
    var s := Exec(ops, zones, run).value;
    assert ZoneInv(ops, zones[zone], s, zone);
  }

  /** A zone holding a host the client cannot represent is never overwritten. */
  lemma UnreadableZoneIsUntouched(ops: seq<Upsert>, zones: map<Zone, seq<RawHost>>, run: seq<Step>, zone: Zone)
    requires Exec(ops, zones, run).Some? && zone in zones && ParseZone(zones[zone]).None?
    ensures zone in Exec(ops, zones, run).value.zones && Exec(ops, zones, run).value.zones[zone] == zones[zone]
  {
    RunInv(ops, zones, run);
    assert ZoneInv(ops, zones[zone], Exec(ops, zones, run).value, zone);
  }

  /** At most one call at a time is between its read and its write. */
  lemma OneWriterAtATime(ops: seq<Upsert>, zones: map<Zone, seq<RawHost>>, run: seq<Step>, i: nat, j: nat)
    requires Exec(ops, zones, run).Some? && i < |ops| && j < |ops|
    requires |Exec(ops, zones, run).value.phases| == |ops|
    requires Busy(Exec(ops, zones, run).value.phases[i]) && Busy(Exec(ops, zones, run).value.phases[j])
    ensures i == j
  {
    RunInv(ops, zones, run);
  }

  /** Without lost replies the applied upserts are exactly the calls that returned. */
  lemma {:induction false} AppliedAreTheReturned(ops: seq<Upsert>, zones: map<Zone, seq<RawHost>>, run: seq<Step>)
    requires Exec(ops, zones, run).Some? && forall i :: 0 <= i < |run| ==> !run[i].SetLost?
    ensures var s := Exec(ops, zones, run).value;
            |s.phases| == |ops| && forall id: nat :: id in s.applied <==> id < |ops| && s.phases[id] == Returned
  {
    RunInv(ops, zones, run);
    if run != [] {
      var n := |run| - 1;
      AppliedAreTheReturned(ops, zones, run[..n]);
      RunInv(ops, zones, run[..n]);
      assert !run[n].SetLost?;
    }
  }

  // ---------- what one upsert does ----------

  /** `at` lists, in order, the places of `zone` whose host or type is another than the record's. */
  ghost predicate PlacesOfOthers(zone: seq<DnsRecord>, r: DnsRecord, at: seq<nat>) {
    && (forall j, k :: 0 <= j < k < |at| ==> at[j] < at[k])
    && (forall i: nat :: i in at <==> i < |zone| && (zone[i].host != r.host || zone[i].rtype != r.rtype))
  }

  /** `after` is the records of `zone` at other hosts or types, in their order, then `r`. */
  ghost predicate Replaces(zone: seq<DnsRecord>, r: DnsRecord, after: seq<DnsRecord>) {
    exists at: seq<nat> :: PlacesOfOthers(zone, r, at) && PicksThenEnds(zone, at, after, r)
  }

  ghost predicate PicksThenEnds(zone: seq<DnsRecord>, at: seq<nat>, after: seq<DnsRecord>, r: DnsRecord) {
    && |after| == |at| + 1 && after[|at|] == r
    && forall j :: 0 <= j < |at| ==> at[j] < |zone| && after[j] == zone[at[j]]
  }

  function Later(at: seq<nat>): (later: seq<nat>)
    ensures |later| == |at| && forall j :: 0 <= j < |at| ==> later[j] == at[j] + 1
  {
    seq(|at|, j requires 0 <= j < |at| => at[j] + 1)
  }

  lemma LaterIn(at: seq<nat>, i: nat)
    ensures i in Later(at) <==> i > 0 && i - 1 in at
  {
    if i > 0 && i - 1 in at {
      var j :| 0 <= j < |at| && at[j] == i - 1;
      assert Later(at)[j] == i;
    }
  }

  lemma PlacesStep(zone: seq<DnsRecord>, r: DnsRecord, at: seq<nat>)
    requires zone != [] && PlacesOfOthers(zone[1..], r, at)
    ensures zone[0].host == r.host && zone[0].rtype == r.rtype ==> PlacesOfOthers(zone, r, Later(at))
    ensures zone[0].host != r.host || zone[0].rtype != r.rtype ==> PlacesOfOthers(zone, r, [0] + Later(at))
  {
    forall i: nat | i > 0
      ensures i in Later(at) <==> i < |zone| && (zone[i].host != r.host || zone[i].rtype != r.rtype)
    {
      LaterIn(at, i);
      if i < |zone| {
        assert zone[1..][i - 1] == zone[i];
      }
    }
    LaterIn(at, 0);
    assert forall i: nat :: i in [0] + Later(at) <==> i == 0 || i in Later(at);
  }

  lemma UpsertedHead(zone: seq<DnsRecord>, r: DnsRecord)
    requires zone != []
    ensures Upserted(zone, r)
         == (if zone[0].host == r.host && zone[0].rtype == r.rtype then [] else [zone[0]]) + Upserted(zone[1..], r)
  {
  }

  /** One more record in front: passed over or picked, the other places move along. */
  lemma PicksPassOver(zone: seq<DnsRecord>, r: DnsRecord, at: seq<nat>, after: seq<DnsRecord>)
    requires zone != [] && PicksThenEnds(zone[1..], at, after, r)
    ensures PicksThenEnds(zone, Later(at), after, r)
  {
  }

  lemma PicksOneMore(zone: seq<DnsRecord>, r: DnsRecord, at: seq<nat>, after: seq<DnsRecord>)
    requires zone != [] && PicksThenEnds(zone, at, after, r)
    ensures PicksThenEnds(zone, [0] + at, [zone[0]] + after, r)
  {
  }

  /** The kept records are the zone's records of other hosts or types, each in its place among them. */
  lemma {:induction false} KeptAreTheOthers(zone: seq<DnsRecord>, r: DnsRecord) returns (at: seq<nat>)
    ensures PlacesOfOthers(zone, r, at) && PicksThenEnds(zone, at, Upserted(zone, r), r)
  {
    if zone == [] {
      at := [];
    } else {
      var rest := KeptAreTheOthers(zone[1..], r);
      PlacesStep(zone, r, rest);
      UpsertedHead(zone, r);
      PicksPassOver(zone, r, rest, Upserted(zone[1..], r));
      if zone[0].host == r.host && zone[0].rtype == r.rtype {
        at := Later(rest);
        assert [] + Upserted(zone[1..], r) == Upserted(zone[1..], r);
      } else {
        at := [0] + Later(rest);
        PicksOneMore(zone, r, Later(rest), Upserted(zone[1..], r));
      }
    }
  }

  lemma UpsertReplaces(zone: seq<DnsRecord>, r: DnsRecord)
    ensures Replaces(zone, r, Upserted(zone, r))
  {
    var at := KeptAreTheOthers(zone, r);
  }

  /** After an upsert the zone holds the new record, and of the old ones exactly those of another host or type. */
  lemma UpsertHolds(zone: seq<DnsRecord>, r: DnsRecord, q: DnsRecord)
    ensures q in Upserted(zone, r) <==> q == r || (q in zone && (q.host != r.host || q.rtype != r.rtype))
  {
    var at := KeptAreTheOthers(zone, r);
    var after := Upserted(zone, r);
    if q in after {
      var j :| 0 <= j < |after| && after[j] == q;
      assert j < |at| ==> at[j] in at;
    }
    if q in zone && (q.host != r.host || q.rtype != r.rtype) {
      var i :| 0 <= i < |zone| && zone[i] == q;
      assert i in at;
      var j :| 0 <= j < |at| && at[j] == i;
      assert after[j] == q;
    }
    assert after[|at|] == r;
  }

  // ---------- what the fold means ----------

  lemma {:induction false} WithoutConcat(a: seq<DnsRecord>, b: seq<DnsRecord>, keys: set<(string, RecordType)>)
    ensures Without(a + b, keys) == Without(a, keys) + Without(b, keys)
  {
    if a == [] {
      assert a + b == b;
    } else {
      assert (a + b)[1..] == a[1..] + b;
      WithoutConcat(a[1..], b, keys);
    }
  }

  lemma {:induction false} WithoutTwice(
      a: seq<DnsRecord>, few: set<(string, RecordType)>, many: set<(string, RecordType)>)
    requires few <= many
    ensures Without(Without(a, few), many) == Without(a, many)
  {
    if a != [] {
      WithoutTwice(a[1..], few, many);
      WithoutConcat(if KeyOf(a[0]) in few then [] else [a[0]], Without(a[1..], few), many);
    }
  }

  /** Records no upsert names keep their values and their relative order. */
  lemma {:induction false} UntouchedRecordsStay(
    zone: seq<DnsRecord>, records: seq<DnsRecord>, keys: set<(string, RecordType)>)
    requires forall i :: 0 <= i < |records| ==> (records[i].host, records[i].rtype) in keys
    ensures Without(Fold(zone, records), keys) == Without(zone, keys)
  {
    if records != [] {
      var n := |records| - 1;
      UntouchedRecordsStay(zone, records[..n], keys);
      var before := Fold(zone, records[..n]);
      WithoutConcat(Without(before, {KeyOf(records[n])}), [records[n]], keys);
      WithoutTwice(before, {KeyOf(records[n])}, keys);
      assert Without([records[n]], keys) == [];
    }
  }

  /** The last upsert of a host and type, if any. */
  function LastOf(records: seq<DnsRecord>, host: string, rtype: RecordType): Option<DnsRecord> {
    if records == [] then None else
      var last := records[|records| - 1];
      if last.host == host && last.rtype == rtype then Some(last) else LastOf(records[..|records| - 1], host, rtype)
  }

  lemma {:induction false} RecordsAtConcat(a: seq<DnsRecord>, b: seq<DnsRecord>, host: string, rtype: RecordType)
    ensures RecordsAt(a + b, host, rtype) == RecordsAt(a, host, rtype) + RecordsAt(b, host, rtype)
  {
    if a == [] {
      assert a + b == b;
    } else {
      assert (a + b)[1..] == a[1..] + b;
      RecordsAtConcat(a[1..], b, host, rtype);
    }
  }

  lemma {:induction false} RecordsAtWithout(a: seq<DnsRecord>, gone: DnsRecord, host: string, rtype: RecordType)
    ensures RecordsAt(Without(a, {KeyOf(gone)}), host, rtype)
         == if gone.host == host && gone.rtype == rtype then [] else RecordsAt(a, host, rtype)
  {
    if a != [] {
      RecordsAtWithout(a[1..], gone, host, rtype);
      RecordsAtConcat(
        if KeyOf(a[0]) in {KeyOf(gone)} then [] else [a[0]], Without(a[1..], {KeyOf(gone)}), host, rtype);
    }
  }

  /** Per host and type the fold holds exactly the last upsert, or what was there before. */
  lemma {:induction false} LastUpsertWins(
      zone: seq<DnsRecord>, records: seq<DnsRecord>, host: string, rtype: RecordType)
    ensures var last := LastOf(records, host, rtype);
            RecordsAt(Fold(zone, records), host, rtype)
            == if last.Some? then [last.value] else RecordsAt(zone, host, rtype)
  {
    if records != [] {
      var n := |records| - 1;
      LastUpsertWins(zone, records[..n], host, rtype);
      var before, r := Fold(zone, records[..n]), records[n];
      RecordsAtConcat(Without(before, {KeyOf(r)}), [r], host, rtype);
      RecordsAtWithout(before, r, host, rtype);
      assert RecordsAt([r], host, rtype) == if r.host == host && r.rtype == rtype then [r] else [];
    }
  }

  /** The call was applied to this zone. */
  ghost predicate AppliedTo(ops: seq<Upsert>, applied: set<nat>, zone: Zone, id: nat) {
    id in applied && id < |ops| && SplitDomain(ops[id].domain) == Some(zone)
  }

  lemma HistoryEnds(
      ops: seq<Upsert>, acquired: seq<nat>, applied: set<nat>, zone: Zone, host: string, rtype: RecordType)
    requires acquired != []
    ensures var n := |acquired| - 1;
            LastOf(History(ops, acquired, applied, zone), host, rtype)
            == if AppliedTo(ops, applied, zone, acquired[n])
                  && ops[acquired[n]].record.host == host && ops[acquired[n]].record.rtype == rtype
               then Some(ops[acquired[n]].record)
               else LastOf(History(ops, acquired[..n], applied, zone), host, rtype)
  {
    var n := |acquired| - 1;
    var rest := History(ops, acquired[..n], applied, zone);
    if AppliedTo(ops, applied, zone, acquired[n]) {
      assert (rest + [ops[acquired[n]].record])[..|rest|] == rest;
    }
  }

  /** The q-th lock holder was applied, and its record is the last of this host and type. */
  ghost predicate IsLast(
      ops: seq<Upsert>, acquired: seq<nat>, applied: set<nat>, zone: Zone, q: nat, host: string, rtype: RecordType) {
    && q < |acquired| && AppliedTo(ops, applied, zone, acquired[q])
    && ops[acquired[q]].record.host == host && ops[acquired[q]].record.rtype == rtype
    && LastOf(History(ops, acquired, applied, zone), host, rtype) == Some(ops[acquired[q]].record)
  }

  lemma StaysLast(
      ops: seq<Upsert>, acquired: seq<nat>, applied: set<nat>, zone: Zone, q: nat, host: string, rtype: RecordType)
    requires acquired != []
    requires var n := |acquired| - 1;
             && IsLast(ops, acquired[..n], applied, zone, q, host, rtype)
             && !(AppliedTo(ops, applied, zone, acquired[n])
                  && ops[acquired[n]].record.host == host && ops[acquired[n]].record.rtype == rtype)
    ensures IsLast(ops, acquired, applied, zone, q, host, rtype)
  {
    HistoryEnds(ops, acquired, applied, zone, host, rtype);
    assert acquired[..|acquired| - 1][q] == acquired[q];
  }

  /** An applied upsert is the last of its host and type, or a later applied one is. */
  lemma {:induction false} LastOfHistory(
      ops: seq<Upsert>, acquired: seq<nat>, applied: set<nat>, zone: Zone, p: nat, mine: DnsRecord)
    returns (q: nat)
    requires p < |acquired| && AppliedTo(ops, applied, zone, acquired[p]) && mine == ops[acquired[p]].record
    ensures p <= q && IsLast(ops, acquired, applied, zone, q, mine.host, mine.rtype)
    decreases |acquired|
  {
    var n := |acquired| - 1;
    if AppliedTo(ops, applied, zone, acquired[n])
       && ops[acquired[n]].record.host == mine.host && ops[acquired[n]].record.rtype == mine.rtype {
      HistoryEnds(ops, acquired, applied, zone, mine.host, mine.rtype);
      q := n;
    } else {
      assert acquired[..n][p] == acquired[p];
      q := LastOfHistory(ops, acquired[..n], applied, zone, p, mine);
      StaysLast(ops, acquired, applied, zone, q, mine.host, mine.rtype);
    }
  }

  /**
   No completed upsert is lost: when its call has returned, its host and type hold one record, its
   own or that of an upsert that took the lock later.
   */
  lemma CompletedUpsertIsNotLost(ops: seq<Upsert>, zones: map<Zone, seq<RawHost>>, run: seq<Step>, id: nat)
    returns (later: nat)
    requires Exec(ops, zones, run).Some? && id < |ops|
    requires id < |Exec(ops, zones, run).value.phases| && Exec(ops, zones, run).value.phases[id] == Returned
    requires SplitDomain(ops[id].domain).Some? && SplitDomain(ops[id].domain).value in zones
    requires ParseZone(zones[SplitDomain(ops[id].domain).value]).Some?
    ensures var s, zone := Exec(ops, zones, run).value, SplitDomain(ops[id].domain).value;
            && later < |ops|
            && ops[later].record.host == ops[id].record.host && ops[later].record.rtype == ops[id].record.rtype
            && (exists p, q :: 0 <= p <= q < |s.acquired| && s.acquired[p] == id && s.acquired[q] == later)
            && zone in s.zones && ParseZone(s.zones[zone]).Some?
            && RecordsAt(ParseZone(s.zones[zone]).value, ops[id].record.host, ops[id].record.rtype)
               == [ops[later].record]
  {
    RunInv(ops, zones, run);
    var s, zone, mine := Exec(ops, zones, run).value, SplitDomain(ops[id].domain).value, ops[id].record;
    var p :| 0 <= p < |s.acquired| && s.acquired[p] == id;
    var q := LastOfHistory(ops, s.acquired, s.applied, zone, p, mine);
    later := s.acquired[q];
    ZoneIsFoldInLockOrder(ops, zones, run, zone);
    var history := History(ops, s.acquired, s.applied, zone);
    LastUpsertWins(ParseZone(zones[zone]).value, history, mine.host, mine.rtype);
  }

  // ---------- a call can always go on ----------

  /** A run may begin: no call has started, nothing is locked, and the zones are as given. */
  lemma RunBegins(ops: seq<Upsert>, zones: map<Zone, seq<RawHost>>)
    ensures var s := Exec(ops, zones, []);
            && s.Some? && s.value.zones == zones && s.value.lock == None && |s.value.phases| == |ops|
            && forall id :: 0 <= id < |ops| ==> s.value.phases[id] == Waiting
  {
  }

  lemma ExecOne(ops: seq<Upsert>, zones: map<Zone, seq<RawHost>>, run: seq<Step>, step: Step)
    requires Exec(ops, zones, run).Some? && Enabled(ops, Exec(ops, zones, run).value, step)
    ensures Exec(ops, zones, run + [step]) == Some(Next(ops, Exec(ops, zones, run).value, step))
  {
    assert (run + [step])[..|run|] == run;
  }

  /**
   Whenever the lock is free a waiting call whose zone can be read may take it, read, write and return;
   its zone is then the one it read with its record put in.
   */
  lemma CallCanComplete(ops: seq<Upsert>, zones: map<Zone, seq<RawHost>>, run: seq<Step>, id: nat)
    requires Exec(ops, zones, run).Some? && id < |ops|
    requires var s := Exec(ops, zones, run).value;
             && s.lock == None && id < |s.phases| && s.phases[id] == Waiting
             && SplitDomain(ops[id].domain).Some? && SplitDomain(ops[id].domain).value in s.zones
             && ParseZone(s.zones[SplitDomain(ops[id].domain).value]).Some?
    ensures var zone := SplitDomain(ops[id].domain).value;
            var before := ParseZone(Exec(ops, zones, run).value.zones[zone]).value;
            var after := Exec(ops, zones, run + [Acquire(id)] + [GetOk(id)] + [SetOk(id)]);
            && after.Some? && |after.value.phases| == |ops| && after.value.phases[id] == Returned
            && after.value.lock == None && zone in after.value.zones
            && ParseZone(after.value.zones[zone]) == Some(Upserted(before, ops[id].record))
  {
    var zone := SplitDomain(ops[id].domain).value;
    RunInv(ops, zones, run);
    ExecOne(ops, zones, run, Acquire(id));
    ExecOne(ops, zones, run + [Acquire(id)], GetOk(id));
    var s := Exec(ops, zones, run + [Acquire(id)] + [GetOk(id)]).value;
    DecodeEncode(zone, Upserted(s.phases[id].current, ops[id].record));
    ExecOne(ops, zones, run + [Acquire(id)] + [GetOk(id)], SetOk(id));
  }

  /** Whoever holds the lock may still fail: its read, or its write, with or without an effect. */
  lemma HolderMayFail(ops: seq<Upsert>, zones: map<Zone, seq<RawHost>>, run: seq<Step>, id: nat)
    requires Exec(ops, zones, run).Some? && id < |ops|
    requires id < |Exec(ops, zones, run).value.phases| && Busy(Exec(ops, zones, run).value.phases[id])
    ensures var s := Exec(ops, zones, run).value;
            && (s.phases[id].Locked? ==> Enabled(ops, s, GetFail(id)))
            && (s.phases[id].HasRead? ==> Enabled(ops, s, SetRefused(id)) && Enabled(ops, s, SetLost(id)))
  {
    RunInv(ops, zones, run);
    var s := Exec(ops, zones, run).value;
    if s.phases[id].HasRead? {
      DecodeEncode(SplitDomain(ops[id].domain).value, Upserted(s.phases[id].current, ops[id].record));
    }
  }
}
