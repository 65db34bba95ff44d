/**
 The two pages that stream: the Ollama page's progress events and one result, the analyst page's stages
 and one verdict. What the browser makes of them rests on Ndjson's readers.
 */
module PageStreams {
  import opened Wrappers
  import opened Text
  import opened Ndjson
  import opened WizardSteps
  import AnalystProgress

  // ---------- one model's download ----------

  /** One line of Ollama's answer: JSON, or text that is not. */
  datatype Answer =
    | NotJson(text: string)
    | PullLine(status: string, completed: Option<int>, total: Option<int>, error: string)

  datatype Event =
    | Progress(model: string, status: string, completed: Option<int>, total: Option<int>)
    | Result(verified: bool)

  predicate IsError(a: Answer) {
    a.NotJson? || a.error != ""
  }

  function EventOf(model: string, a: Answer): Event {
    if IsError(a) then Progress(model, "error: " + (if a.NotJson? then a.text else a.error), None, None)
    else Progress(model, a.status, a.completed, a.total)
  }

  /** `_pull`: an event per line, up to the first error; whether there was none. */
  function Pulled(model: string, answers: seq<Answer>): (seq<Event>, bool) {
    if answers == [] then ([], true)
    else if IsError(answers[0]) then ([EventOf(model, answers[0])], false)
    else
      var rest := Pulled(model, answers[1..]);
      ([EventOf(model, answers[0])] + rest.0, rest.1)
  }

  method Pull(model: string, answers: seq<Answer>) returns (events: seq<Event>, pulled: bool)
    ensures (events, pulled) == Pulled(model, answers)
  {
    events := [];
    assert answers[0..] == answers;
    assert [] + Pulled(model, answers).0 == Pulled(model, answers).0;
    for i := 0 to |answers|
      invariant Pulled(model, answers) == (events + Pulled(model, answers[i..]).0, Pulled(model, answers[i..]).1)
    {
      assert answers[i..][0] == answers[i] && answers[i..][1..] == answers[i + 1..];
      events := events + [EventOf(model, answers[i])];
      if IsError(answers[i]) {
        return events, false;
      }
      Assoc(events[..|events| - 1], [EventOf(model, answers[i])], Pulled(model, answers[i + 1..]).0);
      assert events == events[..|events| - 1] + [EventOf(model, answers[i])];
    }
    assert events + [] == events;
    pulled := true;
  }

  ghost predicate AllProgress(events: seq<Event>, model: string) {
    forall i :: 0 <= i < |events| ==> events[i].Progress? && events[i].model == model
  }

  /** What a progress event tells of its line: its own fields, or its error and no sizes. */
  predicate Reports(e: Event, a: Answer) {
    && e.Progress?
    && (a.NotJson? ==> e.status == "error: " + a.text)
    && (a.PullLine? && a.error != "" ==> e.status == "error: " + a.error)
    && (a.PullLine? && a.error == "" ==> e.status == a.status && e.completed == a.completed && e.total == a.total)
    && (a.NotJson? || a.error != "" ==> e.completed == None && e.total == None)
  }

  lemma EventReports(model: string, a: Answer)
    ensures Reports(EventOf(model, a), a) && EventOf(model, a).model == model
    ensures IsError(a) <==> a.NotJson? || a.error != ""
  {
  }

  lemma {:induction false} PulledEvents(model: string, answers: seq<Answer>)
    ensures var (events, ok) := Pulled(model, answers);
            && |events| <= |answers|
            && (forall i :: 0 <= i < |events| ==> events[i] == EventOf(model, answers[i]))
            && (forall i :: 0 <= i < |events| - 1 ==> !IsError(answers[i]))
            && (ok <==> forall i :: 0 <= i < |answers| ==> !IsError(answers[i]))
            && (ok ==> |events| == |answers|)
            && (!ok ==> events != [] && IsError(answers[|events| - 1]))
  {
    if answers != [] && !IsError(answers[0]) {
      PulledEvents(model, answers[1..]);
      assert forall i :: 1 <= i < |answers| ==> answers[i] == answers[1..][i - 1];
    }
  }

  /** Neither text that is not JSON nor a line with an error. */
  predicate IsFine(a: Answer) {
    a.PullLine? && a.error == ""
  }

  /** A download reports each line in order; it fails exactly at the first error, which is its last event. */
  lemma PullStopsAtError(model: string, answers: seq<Answer>)
    ensures var (events, ok) := Pulled(model, answers);
            && AllProgress(events, model) && |events| <= |answers|
            && (forall i :: 0 <= i < |events| ==> Reports(events[i], answers[i]))
            && (forall i :: 0 <= i < |events| - 1 ==> IsFine(answers[i]))
            && (ok <==> forall i :: 0 <= i < |answers| ==> IsFine(answers[i]))
            && (ok ==> |events| == |answers|)
            && (!ok ==> events != [] && !IsFine(answers[|events| - 1]))
  {
    PulledEvents(model, answers);
    forall i | 0 <= i < |answers|
      ensures Reports(EventOf(model, answers[i]), answers[i]) && EventOf(model, answers[i]).model == model
      ensures IsError(answers[i]) <==> !IsFine(answers[i])
    {
      EventReports(model, answers[i]);
    }
  }

  // ---------- the Ollama page ----------

  /** What the box answers during one run of the page. */
  datatype OllamaRun = OllamaRun(
    network: bool, apiOpens: bool, chatModel: string, embeddingModel: string, chat: seq<Answer>, embedding: seq<Answer>,
    verified: bool)

  /** The events of the two downloads; the second only after the first succeeded. */
  function Downloads(run: OllamaRun): (seq<Event>, bool) {
    if !run.apiOpens then ([], false) else
      var chat := Pulled(run.chatModel, run.chat);
      if !chat.1 then chat else
        var embedding := Pulled(run.embeddingModel, run.embedding);
        (chat.0 + embedding.0, embedding.1)
  }

  function PageEvents(run: OllamaRun): seq<Event> {
    if !run.network then [Result(false)] else Downloads(run).0 + [Result(run.verified)]
  }

  class OllamaService {
    const tracker: StepTracker
    /** How often the models were set up for good. */
    var prepared: nat

    constructor (tracker: StepTracker)
      ensures this.tracker == tracker && prepared == 0
    {
      this.tracker, prepared := tracker, 0;
    }

    /** `apply`: None when it refuses before streaming, else the whole event stream. */
    method Apply(run: OllamaRun) returns (events: Option<seq<Event>>)
      modifies this`prepared, tracker
      ensures events == if Ollama in old(tracker.done) then None else Some(PageEvents(run))
      ensures tracker.done
           == old(tracker.done) + (if Ollama !in old(tracker.done) && run.network && run.verified then {Ollama} else {})
      ensures prepared
           == old(prepared) + (if Ollama !in old(tracker.done) && run.network && Downloads(run).1 then 1 else 0)
    {
      if Ollama in tracker.done {
        return None;
      }
      if !run.network {
        return Some([Result(false)]);
      }
      var streamed: seq<Event> := [];
      if run.apiOpens {
        var pulled := true;
        var models := [(run.chatModel, run.chat), (run.embeddingModel, run.embedding)];
        for i := 0 to 2
          invariant tracker.done == old(tracker.done) && prepared == old(prepared)
          invariant i == 0 ==> pulled && streamed == []
          invariant i == 1 ==> (streamed, pulled) == Pulled(run.chatModel, run.chat)
          invariant i == 2 ==> (streamed, pulled) == Downloads(run)
        {
          if pulled {
            var more, ok := Pull(models[i].0, models[i].1);
            assert [] + more == more;
            streamed, pulled := streamed + more, ok;
          }
        }
        if pulled {
          prepared := prepared + 1;
        }
      }
      if run.verified {
        tracker.MarkDone(Ollama);
      }
      events := Some(streamed + [Result(run.verified)]);
    }
  }

  ghost predicate OneResultLast(events: seq<Event>) {
    events != [] && events[|events| - 1].Result? && forall i :: 0 <= i < |events| - 1 ==> events[i].Progress?
  }

  /** Progress events, then exactly one result; after a failed download of the first model nothing of the second. */
  lemma PageEndsInOneResult(run: OllamaRun)
    ensures OneResultLast(PageEvents(run))
    ensures !run.network ==> PageEvents(run) == [Result(false)]
    ensures run.network ==> PageEvents(run)[|PageEvents(run)| - 1] == Result(run.verified)
    ensures run.network && !run.apiOpens ==> PageEvents(run) == [Result(run.verified)]
    ensures run.network && run.apiOpens && !Pulled(run.chatModel, run.chat).1 ==>
      PageEvents(run) == Pulled(run.chatModel, run.chat).0 + [Result(run.verified)]
    ensures run.network && run.apiOpens && Pulled(run.chatModel, run.chat).1 ==>
      PageEvents(run)
      == Pulled(run.chatModel, run.chat).0 + Pulled(run.embeddingModel, run.embedding).0 + [Result(run.verified)]
  {
    PullStopsAtError(run.chatModel, run.chat);
    PullStopsAtError(run.embeddingModel, run.embedding);
  }

  /** The models are set up for good exactly when the API opens and neither download meets an error. */
  lemma PreparedIff(run: OllamaRun)
    ensures Downloads(run).1 <==>
      && run.apiOpens
      && (forall i :: 0 <= i < |run.chat| ==> IsFine(run.chat[i]))
      && (forall i :: 0 <= i < |run.embedding| ==> IsFine(run.embedding[i]))
  {
    PullStopsAtError(run.chatModel, run.chat);
    PullStopsAtError(run.embeddingModel, run.embedding);
  }

  // ---------- what the browser makes of it ----------

  /** What `streamOllama` resolves with: the last result it saw; None where it rejects. */
  function Resolved(read: Outcome<Event>): Option<bool> {
    if read.bad.Some? then None else LastResult(read.events)
  }

  function LastResult(events: seq<Event>): Option<bool> {
    if events == [] then None
    else if events[|events| - 1].Result? then Some(events[|events| - 1].verified)
    else LastResult(events[..|events| - 1])
  }

  lemma {:induction false} NoResultYet(events: seq<Event>)
    requires forall i :: 0 <= i < |events| ==> events[i].Progress?
    ensures LastResult(events) == None
  {
    if events != [] {
      NoResultYet(events[..|events| - 1]);
    }
  }

  /**
   However the network cuts the Ollama page's stream, and wherever it breaks off, the browser has seen
   the page's first events in order, and resolves exactly when all of it arrived, with the page's result.
   */
  lemma BrowserSeesThePage(
      encode: Event -> string, parse: string -> Option<Event>, run: OllamaRun, chunks: seq<string>, n: nat)
    returns (k: nat)
    requires Codec(encode, parse)
    requires var text := Written(encode, PageEvents(run)); n <= |text| && Concat(chunks) == text[..n]
    ensures var read := Handled(Complete(Concat(chunks)), IsEmpty, parse);
            && k <= |PageEvents(run)| && read == Outcome(PageEvents(run)[..k], None)
            && (Resolved(read).Some? <==> n == |Written(encode, PageEvents(run))|)
            && (Resolved(read).Some? ==> read.events == PageEvents(run))
            && (Resolved(read).Some? ==> Resolved(read) == Some(PageEvents(run)[|PageEvents(run)| - 1].verified))
  {
    var events := PageEvents(run);
    PageEndsInOneResult(run);
    k := ReadersSeeCompleteEvents(encode, parse, events, n);
    if k < |events| {
      NoResultYet(events[..k]);
    } else {
      assert events[..k] == events;
    }
  }

  // ---------- the analyst page ----------

  /**
   One poll: the stages read from the log (None: reading them raised), whether the last is done, whether the
   container lives.
   */
  datatype Poll<T> = Poll(stages: Option<T>, ready: bool, alive: bool)

  datatype AnalystEvent<T> = Stages(stages: T) | Verdict(verified: bool)

  predicate Ends<T>(poll: Poll<T>) {
    poll.stages.None? || poll.ready || !poll.alive
  }

  /** Some poll ends the loop. */
  predicate SomeEnds<T>(polls: seq<Poll<T>>) {
    exists k :: 0 <= k < |polls| && Ends(polls[k])
  }

  /** The polls up to the one the loop ends on. */
  function Polled<T>(polls: seq<Poll<T>>): seq<Poll<T>> {
    if polls == [] || Ends(polls[0]) then polls[..if polls == [] then 0 else 1] else [polls[0]] + Polled(polls[1..])
  }

  function Update<T>(poll: Poll<T>): seq<AnalystEvent<T>> {
    if poll.stages.None? then [] else [Stages(poll.stages.value)]
  }

  /** A stage update per poll that could be read. */
  function Updates<T>(polls: seq<Poll<T>>): seq<AnalystEvent<T>> {
    if polls == [] then [] else Updates(polls[..|polls| - 1]) + Update(polls[|polls| - 1])
  }

  /** A poll raised before the loop ended otherwise. */
  predicate Raises<T>(polls: seq<Poll<T>>) {
    exists k :: 0 <= k < |Polled(polls)| && Polled(polls)[k].stages.None?
  }

  /** The whole stream: an exception in the loop ends it without a verdict. */
  function StreamEvents<T>(polls: seq<Poll<T>>, verified: bool): seq<AnalystEvent<T>> {
    Updates(Polled(polls)) + if Raises(polls) then [] else [Verdict(verified)]
  }

  ghost predicate HasVerdict<T>(events: seq<AnalystEvent<T>>) {
    exists k :: 0 <= k < |events| && events[k].Verdict?
  }

  lemma {:induction false} UpdatesAreStages<T>(polls: seq<Poll<T>>)
    ensures |Updates(polls)| <= |polls| && forall k :: 0 <= k < |Updates(polls)| ==> Updates(polls)[k].Stages?
  {
    if polls != [] {
      UpdatesAreStages(polls[..|polls| - 1]);
    }
  }

  lemma StagesHaveNoVerdict<T>(events: seq<AnalystEvent<T>>)
    requires forall k :: 0 <= k < |events| ==> events[k].Stages?
    ensures !HasVerdict(events)
  {
  }

  lemma LastIsVerdict<T>(events: seq<AnalystEvent<T>>, verified: bool)
    ensures HasVerdict(events + [Verdict(verified)])
  {
    assert (events + [Verdict(verified)])[|events|].Verdict?;
  }

  /** While the polled logs can be read, the stream shows the stages of each of them, in order. */
  lemma {:induction false} UpdatesShowPolls<T>(polls: seq<Poll<T>>)
    requires forall k :: 0 <= k < |polls| ==> polls[k].stages.Some?
    ensures |Updates(polls)| == |polls|
    ensures forall k :: 0 <= k < |polls| ==> Updates(polls)[k] == Stages(polls[k].stages.value)
  {
    if polls != [] {
      UpdatesShowPolls(polls[..|polls| - 1]);
    }
  }

  /** The stream carries a verdict exactly when every polled log could be read. */
  lemma VerdictIff<T>(polls: seq<Poll<T>>, verified: bool)
    ensures HasVerdict(StreamEvents(polls, verified)) <==> !Raises(polls)
    ensures !Raises(polls) <==> forall k :: 0 <= k < |Polled(polls)| ==> Polled(polls)[k].stages.Some?
  {
    var updates := Updates(Polled(polls));
    UpdatesAreStages(Polled(polls));
    if Raises(polls) {
      var k :| 0 <= k < |Polled(polls)| && Polled(polls)[k].stages.None?;
      assert updates + [] == updates;
      StagesHaveNoVerdict(updates);
    } else {
      LastIsVerdict(updates, verified);
    }
  }

  /** What is polled is the start of the polls, up to and including the first that ends the loop. */
  lemma {:induction false} PolledUpToTheEnd<T>(polls: seq<Poll<T>>)
    ensures Polled(polls) <= polls
    ensures forall j :: 0 <= j < |Polled(polls)| - 1 ==> !Ends(polls[j])
    ensures |Polled(polls)| < |polls| ==> Polled(polls) != [] && Ends(polls[|Polled(polls)| - 1])
  {
    if polls != [] && !Ends(polls[0]) {
      PolledUpToTheEnd(polls[1..]);
    }
  }

  lemma {:induction false} PolledIs<T>(polls: seq<Poll<T>>, i: nat)
    requires i < |polls| && Ends(polls[i]) && forall j :: 0 <= j < i ==> !Ends(polls[j])
    ensures Polled(polls) == polls[..i + 1]
  {
    if i > 0 {
      PolledIs(polls[1..], i - 1);
      assert [polls[0]] + polls[1..][..i] == polls[..i + 1];
    }
  }

  /** A poll of the container: its log, and whether it lives. */
  datatype LogPoll = LogPoll(log: seq<AnalystProgress.Line>, alive: bool)

  type Status = seq<AnalystProgress.StageProgress>

  function PollOf(poll: LogPoll): Poll<Status> {
    var stages := AnalystProgress.StatusOf(poll.log);
    Poll(stages, stages.Some? && stages.value[3].phase.Done?, poll.alive)
  }

  /** A poll ends the loop when its log cannot be read, holds the server's ready line, or its container is gone. */
  lemma PollEndsIff(poll: LogPoll)
    ensures Ends(PollOf(poll)) <==>
      || AnalystProgress.StatusOf(poll.log).None?
      || (exists i :: 0 <= i < |poll.log| && 3 in poll.log[i].finishes)
      || !poll.alive
  {
    AnalystProgress.DoneIff(poll.log, 3);
  }

  function PollsOf(polls: seq<LogPoll>): (read: seq<Poll<Status>>)
    ensures |read| == |polls|
  {
    if polls == [] then [] else PollsOf(polls[..|polls| - 1]) + [PollOf(polls[|polls| - 1])]
  }

  lemma {:induction false} PollsAt(polls: seq<LogPoll>, i: nat)
    requires i < |polls|
    ensures PollsOf(polls)[i] == PollOf(polls[i])
  {
    if i < |polls| - 1 {
      PollsAt(polls[..|polls| - 1], i);
    }
  }

  /** `all` is what the logs of `polls` read as. */
  ghost predicate ReadAs(polls: seq<LogPoll>, all: seq<Poll<Status>>) {
    |all| == |polls| && forall i {:trigger PollOf(polls[i])} :: 0 <= i < |polls| ==> all[i] == PollOf(polls[i])
  }

  /** One poll. */
  method ReadPoll(polls: seq<LogPoll>, ghost all: seq<Poll<Status>>, i: nat) returns (read: Poll<Status>)
    requires ReadAs(polls, all) && i < |polls|
    ensures read == all[i]
  {
    var stages := AnalystProgress.StageStatus(polls[i].log);
    read := Poll(stages, stages.Some? && stages.value[3].phase.Done?, polls[i].alive);
    assert read == PollOf(polls[i]);
  }

  lemma OneMoreUpdate<T>(polls: seq<Poll<T>>, i: nat)
    requires i < |polls|
    ensures Updates(polls[..i + 1]) == Updates(polls[..i]) + Update(polls[i])
  {
    assert polls[..i + 1][..i] == polls[..i];
  }

  lemma RaisesAtTheEnd<T>(polls: seq<Poll<T>>, i: nat)
    requires i < |polls| && Ends(polls[i]) && forall j :: 0 <= j < i ==> !Ends(polls[j])
    ensures Polled(polls) == polls[..i + 1] && (Raises(polls) <==> polls[i].stages.None?)
  {
    PolledIs(polls, i);
    assert polls[..i + 1][i] == polls[i];
  }

  /** Poll until the server is ready, its container is gone, or a reading raises. */
  method PollUntilEnd(polls: seq<LogPoll>, ghost all: seq<Poll<Status>>)
    returns (events: seq<AnalystEvent<Status>>, raised: bool)
    requires ReadAs(polls, all) && SomeEnds(all)
    ensures events == Updates(Polled(all)) && raised == Raises(all)
  {
    events := [];
    var i := 0;
    ghost var k :| 0 <= k < |all| && Ends(all[k]);
    while true
      invariant i < |polls| && forall j :: 0 <= j < i ==> !Ends(all[j])
      invariant events == Updates(all[..i])
      decreases |polls| - i
    {
      var poll := ReadPoll(polls, all, i);
      OneMoreUpdate(all, i);
      events := events + Update(poll);
      if poll.stages.None? || poll.ready || !poll.alive {
        RaisesAtTheEnd(all, i);
        return events, poll.stages.None?;
      }
      assert i != k;
      i := i + 1;
    }
  }

  /** The polling loop of `start_stream`: a stage update per poll, until one ends it. */
  method PollStages(polls: seq<LogPoll>) returns (events: seq<AnalystEvent<Status>>, raised: bool)
    requires SomeEnds(PollsOf(polls))
    ensures events == Updates(Polled(PollsOf(polls))) && raised == Raises(PollsOf(polls))
  {
    forall i | 0 <= i < |polls| ensures PollsOf(polls)[i] == PollOf(polls[i]) {
      PollsAt(polls, i);
    }
    events, raised := PollUntilEnd(polls, PollsOf(polls));
  }

  /** What the analyst page shows: the last stages, the verdict, or the error of a line. */
  datatype AnalystPage<T> = Applying(stages: Option<T>) | Settled(verified: bool) | Failed(line: string)

  function PageAfter<T>(read: Outcome<AnalystEvent<T>>): AnalystPage<T> {
    if read.bad.Some? then Failed(read.bad.value)
    else if read.events == [] then Applying(None)
    else
      match read.events[|read.events| - 1]
      case Stages(stages) => Applying(Some(stages))
      case Verdict(verified) => Settled(verified)
  }

  /**
   Wherever the stream ends early, as long as it ends like a finished one, the analyst page settles exactly
   when all of it arrived and no poll raised, on the server's verdict. Otherwise it goes on applying, where
   the Ollama page reports an error.
   */
  lemma AnalystPageSettlesIff<T(!new)>(
      encode: AnalystEvent<T> -> string, parse: string -> Option<AnalystEvent<T>>,
      polls: seq<Poll<T>>, verified: bool, chunks: seq<string>, n: nat)
    requires Codec(encode, parse)
    requires var text := Written(encode, StreamEvents(polls, verified)); n <= |text| && Concat(chunks) == text[..n]
    ensures var page := PageAfter(Handled(Complete(Concat(chunks)), IsBlank, parse));
            && (page.Settled? <==> !Raises(polls) && n == |Written(encode, StreamEvents(polls, verified))|)
            && (page.Settled? ==> page.verified == verified)
            && (!page.Settled? ==> page.Applying?)
  {
    var events := StreamEvents(polls, verified);
    var k := ReadersSeeCompleteEvents(encode, parse, events, n);
    UpdatesAreStages(Polled(polls));
    if k == |events| {
      assert events[..k] == events;
    } else if k > 0 {
      assert events[..k][k - 1] == Updates(Polled(polls))[k - 1];
    }
  }

  // ---------- a stream that breaks off one character short ----------

  /** A way to write the analyst page's events, when the stages carry nothing. */
  function Letter(e: AnalystEvent<()>): string {
    if e.Stages? then "s" else if e.verified then "t" else "f"
  }

  function OfLetter(line: string): Option<AnalystEvent<()>> {
    if line == "s" then Some(Stages(())) else if line == "t" then Some(Verdict(true))
    else if line == "f" then Some(Verdict(false)) else None
  }

  lemma LettersAreACodec()
    ensures Codec(Letter, OfLetter)
  {
    forall e: AnalystEvent<()>
      ensures '\n' !in Letter(e) && !IsBlank(Letter(e)) && OfLetter(Letter(e)) == Some(e)
    {
      assert !JsSpace(Letter(e)[0]);
      assert "s"[0] == 's' && "t"[0] == 't' && "f"[0] == 'f';
      match e {
        case Stages(nothing) => assert nothing == ();
        case Verdict(_) =>
      }
    }
  }

  /** All but the last newline of a stream arrived: the analyst page goes on applying. */
  lemma AnalystHangsWhenCut<T(!new)>(
      encode: AnalystEvent<T> -> string, parse: string -> Option<AnalystEvent<T>>, polls: seq<Poll<T>>, verified: bool)
    requires Codec(encode, parse) && !Raises(polls)
    ensures var text := Written(encode, StreamEvents(polls, verified));
            text != "" && PageAfter(Handled(Complete(text[..|text| - 1]), IsBlank, parse)).Applying?
  {
    var text := Written(encode, StreamEvents(polls, verified));
    assert StreamEvents(polls, verified) != [];
    var part := text[..|text| - 1];
    assert Concat([part]) == part;
    AnalystPageSettlesIff(encode, parse, polls, verified, [part], |text| - 1);
  }

  lemma AnalystHangsExample()
    ensures var text := Written(Letter, StreamEvents([Poll(Some(()), true, true)], true));
            text != "" && PageAfter(Handled(Complete(text[..|text| - 1]), IsBlank, OfLetter)).Applying?
  {
    LettersAreACodec();
    var polls := [Poll(Some(()), true, true)];
    PolledIs(polls, 0);
    AnalystHangsWhenCut(Letter, OfLetter, polls, true);
  }

  /** The Ollama page, cut at the same place, rejects. */
  lemma OllamaRejectsWhenCut(encode: Event -> string, parse: string -> Option<Event>, run: OllamaRun)
    requires Codec(encode, parse)
    ensures var text := Written(encode, PageEvents(run));
            text != "" && Resolved(Handled(Complete(text[..|text| - 1]), IsEmpty, parse)) == None
  {
    var text := Written(encode, PageEvents(run));
    var part := text[..|text| - 1];
    assert Concat([part]) == part;
    var k := BrowserSeesThePage(encode, parse, run, [part], |text| - 1);
  }
}
