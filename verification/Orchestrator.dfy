/**
 An order's run, with a fault possible at every call it makes: each call may return, raise before
 taking effect, or raise after. The script is the pipeline as a list of calls; RunSteps plays it
 against the faults and records what took effect.
 */
module Orchestrator {
  import opened Wrappers
  import opened Text
  import opened UniquePath
  import opened Manifest
  import opened SiteIdentity

  // ---------- orders ----------

  datatype Status = Pending | Running | Complete | Failed

  /** The customer's AWS partition; without one they get the appliance ISO. */
  datatype Partition = Standard | Govcloud | NoAws

  datatype DeliveryPath = CfnStandard | CfnGovcloud | ApplianceIso

  datatype Delivery = Delivery(path: DeliveryPath, templateUrl: Option<string>, isoUrl: Option<string>)

  datatype OrderRow = OrderRow(
    status: Status, completedAt: Option<int>, deploymentUuid: Option<string>,
    artifacts: seq<Ref>, delivery: Option<Delivery>)

  datatype Payload = Payload(siteName: string, partition: Partition)

  /**
   What a run meets: the payload (None: it does not validate), the files edp-api made, the keys already
   in the bucket, whether the gateway's checksum is published, and Python's lower case outside ASCII.
   */
  datatype Job = Job(
    orderId: string, payload: Option<Payload>, refs: seq<Ref>, bucket: set<string>, shaPublished: bool,
    publicUrl: string -> string, others: char -> string)

  function PathOf(partition: Partition): DeliveryPath {
    match partition
    case Standard => CfnStandard
    case Govcloud => CfnGovcloud
    case NoAws => ApplianceIso
  }

  // ---------- calls and faults ----------

  datatype Content = Artifact(ref: Ref) | Iso | Template | Zip | ManifestJson | IndexHtml

  /** What a call can do that outlives it. */
  datatype Event = Saved(row: OrderRow) | Put(key: string, content: Content) | ReadyMail | FailureMail

  datatype Outcome = Done | RaisedBefore | RaisedAfter

  /** A call, with its effect if it has one; or a place where the code itself raises. */
  datatype Step = Call(effect: Option<Event>) | Stop

  datatype Log = Log(faults: nat -> Outcome, calls: nat, events: seq<Event>)

  function Occur(effect: Option<Event>): seq<Event> {
    if effect.None? then [] else [effect.value]
  }

  function Try(step: Step, log: Log): (bool, Log) {
    if step.Stop? then (false, log) else
      match log.faults(log.calls)
      case Done => (true, log.(calls := log.calls + 1, events := log.events + Occur(step.effect)))
      case RaisedBefore => (false, log.(calls := log.calls + 1))
      case RaisedAfter => (false, log.(calls := log.calls + 1, events := log.events + Occur(step.effect)))
  }

  function RunSteps(steps: seq<Step>, log: Log): (bool, Log) {
    if steps == [] then (true, log) else
      var first := Try(steps[0], log);
      if first.0 then RunSteps(steps[1..], first.1) else first
  }

  // ---------- the script ----------

  /** The formats edp-api may send; any other raises KeyError. */
  const FORMATS := {"json", "xlsx", "dxf", "pdf", "svg", "step", "glb"}

  function Effect(e: Event): Step {
    Call(Some(e))
  }

  /** `n` calls that leave nothing behind. */
  function Calls(n: nat): seq<Step> {
    seq(n, _ => Call(None))
  }

  function UrlsOf(refs: seq<Ref>): (urls: seq<string>)
    ensures |urls| == |refs| && forall i :: 0 <= i < |refs| ==> urls[i] == refs[i].url
  {
    seq(|refs|, i requires 0 <= i < |refs| => refs[i].url)
  }

  function NamesOf(refs: seq<Ref>): Option<seq<string>> {
    UniquePaths(FileNames(UrlsOf(refs)), {})
  }

  lemma NamesFit(refs: seq<Ref>)
    requires NamesOf(refs).Some?
    ensures |NamesOf(refs).value| == |refs| && Distinct(NamesOf(refs).value)
  {
    UniquePathsDistinct(FileNames(UrlsOf(refs)), {});
  }

  /** One file's upload; the code raises on a format it does not know. */
  function ArchiveStep(orderId: string, ref: Ref, name: string): Step {
    if ref.format in FORMATS then Effect(Put(Key(orderId, name), Artifact(ref))) else Stop
  }

  /** One upload per file, under its own name. */
  function ArchiveAll(orderId: string, refs: seq<Ref>, names: seq<string>): seq<Step>
    requires |names| == |refs|
  {
    if refs == [] then [] else
      [ArchiveStep(orderId, refs[0], names[0])]
      + ArchiveAll(orderId, refs[1..], names[1..])
  }

  function ArchiveSteps(job: Job): seq<Step> {
    var names := NamesOf(job.refs);
    if names.None? then [Stop] else
      NamesFit(job.refs);
      ArchiveAll(job.orderId, job.refs, names.value)
  }

  predicate HasDtm(refs: seq<Ref>) {
    exists i :: 0 <= i < |refs| && refs[i].kind == Dtm
  }

  /** The DTM's own object can be read back: it was in the bucket before, or just archived under that name. */
  predicate DtmReadable(job: Job) {
    Key(job.orderId, "dtm.json") in job.bucket || (NamesOf(job.refs).Some? && "dtm.json" in NamesOf(job.refs).value)
  }

  /** It can be read exactly when its key was in the bucket or archiving put something there. */
  lemma DtmReadableIff(job: Job)
    requires NamesOf(job.refs).Some?
    ensures var key := "orders/" + job.orderId + "/" + "dtm.json";
            DtmReadable(job) <==>
              || key in job.bucket
              || exists e :: e in ArchivePuts(job.orderId, job.refs, ArchivedNames(job)) && e.Put? && e.key == key
  {
    var names, puts := ArchivedNames(job), ArchivePuts(job.orderId, job.refs, ArchivedNames(job));
    if "dtm.json" in names {
      var i :| 0 <= i < |names| && names[i] == "dtm.json";
      assert puts[i] in puts && puts[i].key == Key(job.orderId, "dtm.json");
    }
    if e :| e in puts && e.Put? && e.key == Key(job.orderId, "dtm.json") {
      var i :| 0 <= i < |puts| && puts[i] == e;
      KeyInjective(job.orderId, names[i], "dtm.json");
    }
  }

  /** The file formats the code knows. */
  lemma KnownFormat(format: string)
    ensures format in FORMATS <==>
      || format == "json" || format == "xlsx" || format == "dxf" || format == "pdf" || format == "svg"
      || format == "step" || format == "glb"
  {
  }

  function DeliverySteps(job: Job, payload: Payload): seq<Step> {
    if SiteSlug(job.others, payload.siteName).None? || !HasDtm(job.refs) then [Stop]
    else if payload.partition.NoAws? then
      Calls(1) + [if DtmReadable(job) then Call(None) else Stop] + Calls(1)
      + [Effect(Put(Key(job.orderId, "arcnode-ems.iso"), Iso))]
    else
      Calls(1) + [Effect(Put(Key(job.orderId, "ems-stack.yaml"), Template))]
  }

  /** The files the zip downloads: the system images' and the archived ones with a row. */
  function FileCount(job: Job, payload: Payload): nat {
    (if payload.partition.NoAws? then 2 else if job.shaPublished then 4 else 3) + ShownCount(job.refs)
  }

  function ShownCount(refs: seq<Ref>): nat {
    if refs == [] then 0 else
      ShownCount(refs[..|refs| - 1]) + if Metadata(refs[|refs| - 1].kind).Some? then 1 else 0
  }

  function HeadCalls(payload: Payload): nat {
    if payload.partition.NoAws? then 1 else 4
  }

  function PortalPuts(orderId: string): seq<Step> {
    [Effect(Put(Key(orderId, "arcnode.zip"), Zip)),
     Effect(Put(Key(orderId, "manifest.json"), ManifestJson)),
     Effect(Put(Key(orderId, "index.html"), IndexHtml))]
  }

  /** Sizes, render, the zip's downloads, the three uploads, the signed link. */
  function PortalSteps(job: Job, payload: Payload): seq<Step> {
    Calls(HeadCalls(payload) + 1 + FileCount(job, payload)) + PortalPuts(job.orderId) + Calls(1)
  }

  /** The pipeline up to the mail: bucket, sender, payload, submit, archive, deliver, publish. */
  function Front(job: Job): seq<Step> {
    if job.payload.None? then Calls(2) + [Stop] else
      Calls(3) + ArchiveSteps(job) + DeliverySteps(job, job.payload.value) + PortalSteps(job, job.payload.value)
  }

  /** `_run_pipeline`. */
  function Pipeline(job: Job): seq<Step> {
    Front(job) + [Effect(ReadyMail)]
  }

  // ---------- the whole run ----------

  function DeliveryOf(job: Job, payload: Payload): Delivery {
    var path := PathOf(payload.partition);
    if path.ApplianceIso? then Delivery(path, None, Some(job.publicUrl(Key(job.orderId, "arcnode-ems.iso"))))
    else Delivery(path, Some(job.publicUrl(Key(job.orderId, "ems-stack.yaml"))), None)
  }

  /** The archived refs: the same files, at their new URLs. */
  function Rehomed(job: Job): seq<Ref> {
    if NamesOf(job.refs).None? then [] else
      NamesFit(job.refs);
      var names := NamesOf(job.refs).value;
      seq(|job.refs|, i requires 0 <= i < |job.refs| => job.refs[i].(url := job.publicUrl(Key(job.orderId, names[i]))))
  }

  datatype Execution = Execution(returned: bool, order: OrderRow, log: Log)

  /** The rows a run may save, and whether the payload validates. */
  datatype Ends = Ends(running: OrderRow, complete: OrderRow, failed: OrderRow, valid: bool)

  function EndsOf(job: Job, at: int, order: OrderRow): Ends {
    var running := order.(status := Running);
    var delivery := if job.payload.Some? then Some(DeliveryOf(job, job.payload.value)) else None;
    Ends(running,
      OrderRow(Complete, Some(at), Some(job.orderId), Rehomed(job), delivery),
      running.(status := Failed, completedAt := Some(at)),
      job.payload.Some?)
  }

  /** After the pipeline: save it complete; or save it failed, validate the payload again, tell the contact. */
  function PlayEnd(ends: Ends, ran: (bool, Log)): Execution {
    if ran.0 then
      var saved := Try(Effect(Saved(ends.complete)), ran.1);
      Execution(saved.0, ends.complete, saved.1)
    else
      var saved := Try(Effect(Saved(ends.failed)), ran.1);
      if !saved.0 || !ends.valid then Execution(false, ends.failed, saved.1) else
        var told := Try(Effect(FailureMail), saved.1);
        Execution(told.0, ends.failed, told.1)
  }

  /** Save it running, upload, mail, save how it ended. */
  function Play(front: seq<Step>, ends: Ends, log: Log): Execution {
    var saved := Try(Effect(Saved(ends.running)), log);
    if !saved.0 then Execution(false, ends.running, saved.1)
    else PlayEnd(ends, RunSteps(front + [Effect(ReadyMail)], saved.1))
  }

  /** `execute`. */
  function Executed(job: Job, at: int, order: OrderRow, log: Log): Execution {
    Play(Front(job), EndsOf(job, at, order), log)
  }

  // ---------- playing a script ----------

  lemma {:induction false} RunConcat(a: seq<Step>, b: seq<Step>, log: Log)
    ensures RunSteps(a + b, log)
         == if RunSteps(a, log).0 then RunSteps(b, RunSteps(a, log).1) else RunSteps(a, log)
  {
    if a == [] {
      assert a + b == b;
    } else {
      assert (a + b)[1..] == a[1..] + b && (a + b)[0] == a[0];
      var first := Try(a[0], log);
      if first.0 {
        RunConcat(a[1..], b, first.1);
      }
    }
  }

  /** The effects of a script, up to where it stops. */
  function Planned(steps: seq<Step>): seq<Event> {
    if steps == [] || steps[0].Stop? then [] else Occur(steps[0].effect) + Planned(steps[1..])
  }

  predicate Stops(steps: seq<Step>) {
    steps != [] && (steps[0].Stop? || Stops(steps[1..]))
  }

  lemma PrefixStep(events: seq<Event>, here: seq<Event>, rest: seq<Event>, k: nat)
    requires k <= |rest|
    ensures events + here + rest[..k] == events + (here + rest)[..|here| + k]
    ensures events + here == events + (here + rest)[..|here|]
    ensures events == events + (here + rest)[..0]
  {
  }

  /** However the calls fail, what took effect is a prefix of the plan, and all of it on success. */
  lemma {:induction false} EffectsArePrefix(steps: seq<Step>, log: Log) returns (k: nat)
    ensures k <= |Planned(steps)| && RunSteps(steps, log).1.events == log.events + Planned(steps)[..k]
    ensures RunSteps(steps, log).0 ==> k == |Planned(steps)|
    ensures RunSteps(steps, log).1.faults == log.faults
  {
    if steps == [] || steps[0].Stop? {
      k := 0;
      PrefixStep(log.events, [], Planned(steps), 0);
      assert [] + Planned(steps) == Planned(steps);
    } else {
      var first, here := Try(steps[0], log), Occur(steps[0].effect);
      if first.0 {
        var rest := EffectsArePrefix(steps[1..], first.1);
        k := |here| + rest;
        PrefixStep(log.events, here, Planned(steps[1..]), rest);
      } else {
        k := if log.faults(log.calls).RaisedAfter? then |here| else 0;
        PrefixStep(log.events, here, Planned(steps[1..]), 0);
      }
    }
  }

  ghost predicate AllDone(faults: nat -> Outcome, start: nat, n: nat) {
    forall i :: start <= i < start + n ==> faults(i).Done?
  }

  /** A script succeeds exactly when it has no stop and every one of its calls returns. */
  lemma {:induction false} SucceedsIff(steps: seq<Step>, log: Log)
    ensures RunSteps(steps, log).0 <==> !Stops(steps) && AllDone(log.faults, log.calls, |steps|)
    ensures RunSteps(steps, log).0 ==> RunSteps(steps, log).1.calls == log.calls + |steps|
  {
    if steps != [] {
      var first := Try(steps[0], log);
      if first.0 {
        SucceedsIff(steps[1..], first.1);
        assert AllDone(log.faults, log.calls, |steps|) <==> AllDone(log.faults, log.calls + 1, |steps| - 1);
      } else if !steps[0].Stop? {
        assert !log.faults(log.calls).Done?;
      }
    }
  }

  // ---------- the plan of the pipeline ----------

  lemma {:induction false} StopsConcat(a: seq<Step>, b: seq<Step>)
    ensures Stops(a + b) <==> Stops(a) || Stops(b)
  {
    if a == [] {
      assert a + b == b;
    } else {
      assert (a + b)[1..] == a[1..] + b && (a + b)[0] == a[0];
      StopsConcat(a[1..], b);
    }
  }

  lemma {:induction false} PlannedConcat(a: seq<Step>, b: seq<Step>)
    ensures Planned(a + b) == Planned(a) + if Stops(a) then [] else Planned(b)
  {
    if a == [] {
      assert a + b == b;
      assert [] + Planned(b) == Planned(b);
    } else {
      assert (a + b)[1..] == a[1..] + b && (a + b)[0] == a[0];
      PlannedConcat(a[1..], b);
      if a[0].Call? {
        Assoc(Occur(a[0].effect), Planned(a[1..]), if Stops(a[1..]) then [] else Planned(b));
      }
    }
  }

  lemma {:induction false} CallsPlanNothing(n: nat)
    ensures Planned(Calls(n)) == [] && !Stops(Calls(n))
  {
    if n > 0 {
      assert Calls(n)[1..] == Calls(n - 1);
      CallsPlanNothing(n - 1);
    }
  }

  function ArchivePuts(orderId: string, refs: seq<Ref>, names: seq<string>): (puts: seq<Event>)
    requires |names| == |refs|
    ensures |puts| == |refs|
    ensures forall i :: 0 <= i < |refs| ==> puts[i] == Put(Key(orderId, names[i]), Artifact(refs[i]))
  {
    seq(|refs|, i requires 0 <= i < |refs| => Put(Key(orderId, names[i]), Artifact(refs[i])))
  }

  predicate KnownFormats(refs: seq<Ref>) {
    forall i :: 0 <= i < |refs| ==> refs[i].format in FORMATS
  }

  lemma {:induction false} ArchivePlan(orderId: string, refs: seq<Ref>, names: seq<string>)
    requires |names| == |refs|
    ensures Stops(ArchiveAll(orderId, refs, names)) <==> !KnownFormats(refs)
    ensures KnownFormats(refs) ==> Planned(ArchiveAll(orderId, refs, names)) == ArchivePuts(orderId, refs, names)
  {
    if refs != [] {
      ArchivePlan(orderId, refs[1..], names[1..]);
      assert KnownFormats(refs) <==> refs[0].format in FORMATS && KnownFormats(refs[1..]) by {
        assert forall i :: 1 <= i < |refs| ==> refs[i] == refs[1..][i - 1];
      }
      ArchiveHead(orderId, refs, names);
    }
  }

  lemma ArchiveHead(orderId: string, refs: seq<Ref>, names: seq<string>)
    requires refs != [] && |names| == |refs|
    ensures ArchiveAll(orderId, refs, names)[1..] == ArchiveAll(orderId, refs[1..], names[1..])
    ensures ArchivePuts(orderId, refs, names)
         == [Put(Key(orderId, names[0]), Artifact(refs[0]))] + ArchivePuts(orderId, refs[1..], names[1..])
  {
    var all, rest := ArchivePuts(orderId, refs, names), ArchivePuts(orderId, refs[1..], names[1..]);
    forall i | 0 <= i < |rest| ensures all[1..][i] == rest[i] {
      assert refs[1..][i] == refs[i + 1] && names[1..][i] == names[i + 1];
    }
    assert all[1..] == rest;
    assert all == [all[0]] + all[1..];
  }

  /** Everything the code itself can raise on, calls aside. */
  predicate CanSucceed(job: Job) {
    && job.payload.Some? && NamesOf(job.refs).Some? && KnownFormats(job.refs)
    && SiteSlug(job.others, job.payload.value.siteName).Some? && HasDtm(job.refs)
    && (job.payload.value.partition.NoAws? ==> DtmReadable(job))
  }

  function DeliveryPut(job: Job, payload: Payload): Event {
    if payload.partition.NoAws? then Put(Key(job.orderId, "arcnode-ems.iso"), Iso)
    else Put(Key(job.orderId, "ems-stack.yaml"), Template)
  }

  function PortalEvents(orderId: string): seq<Event> {
    [Put(Key(orderId, "arcnode.zip"), Zip), Put(Key(orderId, "manifest.json"), ManifestJson),
     Put(Key(orderId, "index.html"), IndexHtml)]
  }

  lemma DeliveryPlan(job: Job, payload: Payload)
    ensures Stops(DeliverySteps(job, payload)) <==>
      || SiteSlug(job.others, payload.siteName).None? || !HasDtm(job.refs)
      || (payload.partition.NoAws? && !DtmReadable(job))
    ensures !Stops(DeliverySteps(job, payload)) ==> Planned(DeliverySteps(job, payload)) == [DeliveryPut(job, payload)]
  {
    CallsPlanNothing(1);
    if SiteSlug(job.others, payload.siteName).Some? && HasDtm(job.refs) {
      var put := [Effect(DeliveryPut(job, payload))];
      OnePlan(DeliveryPut(job, payload));
      if payload.partition.NoAws? {
        IsoPlan(job, put);
      } else {
        StopsConcat(Calls(1), put);
        PlannedConcat(Calls(1), put);
      }
    }
  }

  /** The delivery's upload is its last call: nothing can fail after it. */
  lemma DeliveryUploadsLast(job: Job, payload: Payload)
    requires !Stops(DeliverySteps(job, payload))
    ensures var steps := DeliverySteps(job, payload);
            && |steps| >= 2 && steps[|steps| - 1] == Effect(DeliveryPut(job, payload))
            && forall i :: 0 <= i < |steps| - 1 ==> steps[i] == Call(None)
  {
    DeliveryPlan(job, payload);
  }

  lemma OnePlan(e: Event)
    ensures Planned([Effect(e)]) == [e] && !Stops([Effect(e)])
  {
    assert [Effect(e)][1..] == [];
    assert [e] + [] == [e];
  }

  lemma IsoPlan(job: Job, put: seq<Step>)
    requires !Stops(put)
    ensures var steps := Calls(1) + [if DtmReadable(job) then Call(None) else Stop] + Calls(1) + put;
            && (Stops(steps) <==> !DtmReadable(job))
            && (!Stops(steps) ==> Planned(steps) == Planned(put))
  {
    CallsPlanNothing(1);
    var read := [if DtmReadable(job) then Call(None) else Stop];
    assert read[1..] == [];
    StopsConcat(Calls(1), read);
    StopsConcat(Calls(1) + read, Calls(1));
    StopsConcat(Calls(1) + read + Calls(1), put);
    PlannedConcat(Calls(1), read);
    PlannedConcat(Calls(1) + read, Calls(1));
    PlannedConcat(Calls(1) + read + Calls(1), put);
  }

  lemma PortalPlan(job: Job, payload: Payload)
    ensures !Stops(PortalSteps(job, payload)) && Planned(PortalSteps(job, payload)) == PortalEvents(job.orderId)
  {
    var n := HeadCalls(payload) + 1 + FileCount(job, payload);
    CallsPlanNothing(n);
    CallsPlanNothing(1);
    PortalPutsPlan(job.orderId);
    StopsConcat(Calls(n), PortalPuts(job.orderId));
    StopsConcat(Calls(n) + PortalPuts(job.orderId), Calls(1));
    PlannedConcat(Calls(n), PortalPuts(job.orderId));
    PlannedConcat(Calls(n) + PortalPuts(job.orderId), Calls(1));
  }

  lemma PortalPutsPlan(orderId: string)
    ensures !Stops(PortalPuts(orderId)) && Planned(PortalPuts(orderId)) == PortalEvents(orderId)
  {
    var steps, events := PortalPuts(orderId), PortalEvents(orderId);
    OnePlan(events[2]);
    assert steps[2..] == [Effect(events[2])];
    assert steps[1..][1..] == steps[2..];
    assert events == [events[0]] + ([events[1]] + [events[2]]);
  }

  lemma FourParts(a: seq<Step>, b: seq<Step>, c: seq<Step>, d: seq<Step>)
    requires !Stops(a) && Planned(a) == [] && !Stops(d)
    ensures Stops(a + b + c + d) <==> Stops(b) || Stops(c)
    ensures !Stops(b) && !Stops(c) ==> Planned(a + b + c + d) == Planned(b) + Planned(c) + Planned(d)
  {
    StopsConcat(a, b);
    StopsConcat(a + b, c);
    StopsConcat(a + b + c, d);
    PlannedConcat(a, b);
    PlannedConcat(a + b, c);
    PlannedConcat(a + b + c, d);
    assert [] + Planned(b) == Planned(b);
  }

  /** Calls aside, the pipeline raises exactly when one of its own conditions fails. */
  lemma StopsIff(job: Job)
    ensures Stops(Front(job)) <==> !CanSucceed(job)
    ensures CanSucceed(job) ==>
      Planned(Front(job)) == ArchivePuts(job.orderId, job.refs, ArchivedNames(job))
                             + [DeliveryPut(job, job.payload.value)] + PortalEvents(job.orderId)
  {
    if job.payload.None? {
      CallsPlanNothing(2);
      StopsConcat(Calls(2), [Stop]);
    } else {
      var payload := job.payload.value;
      ArchiveStepsPlan(job);
      DeliveryPlan(job, payload);
      PortalPlan(job, payload);
      CallsPlanNothing(3);
      FourParts(Calls(3), ArchiveSteps(job), DeliverySteps(job, payload), PortalSteps(job, payload));
    }
  }

  /** One name per file; empty names where naming raises. */
  function ArchivedNames(job: Job): (names: seq<string>)
    ensures |names| == |job.refs|
    ensures NamesOf(job.refs).Some? ==> names == NamesOf(job.refs).value
  {
    if NamesOf(job.refs).None? then seq(|job.refs|, _ => "") else
      NamesFit(job.refs);
      NamesOf(job.refs).value
  }

  lemma ArchiveStepsPlan(job: Job)
    ensures Stops(ArchiveSteps(job)) <==> NamesOf(job.refs).None? || !KnownFormats(job.refs)
    ensures !Stops(ArchiveSteps(job))
            ==> Planned(ArchiveSteps(job)) == ArchivePuts(job.orderId, job.refs, ArchivedNames(job))
  {
    if NamesOf(job.refs).Some? {
      ArchivePlan(job.orderId, job.refs, ArchivedNames(job));
    }
  }

  // ---------- only uploads before the mail ----------

  ghost predicate OnlyPuts(events: seq<Event>) {
    forall i :: 0 <= i < |events| ==> events[i].Put?
  }

  ghost predicate Uploading(steps: seq<Step>) {
    forall i :: 0 <= i < |steps| ==> steps[i].Call? && steps[i].effect.Some? ==> steps[i].effect.value.Put?
  }

  lemma {:induction false} UploadingPlansPuts(steps: seq<Step>)
    requires Uploading(steps)
    ensures OnlyPuts(Planned(steps))
  {
    if steps != [] && steps[0].Call? {
      UploadingPlansPuts(steps[1..]);
    }
  }

  lemma {:induction false} ArchiveUploads(orderId: string, refs: seq<Ref>, names: seq<string>)
    requires |names| == |refs|
    ensures Uploading(ArchiveAll(orderId, refs, names))
  {
    if refs != [] {
      ArchiveUploads(orderId, refs[1..], names[1..]);
    }
  }

  lemma UploadingConcat(a: seq<Step>, b: seq<Step>)
    requires Uploading(a) && Uploading(b)
    ensures Uploading(a + b)
  {
  }

  lemma DeliveryUploads(job: Job, payload: Payload)
    ensures Uploading(DeliverySteps(job, payload))
  {
  }

  lemma PortalUploads(job: Job, payload: Payload)
    ensures Uploading(PortalSteps(job, payload))
  {
    assert Uploading(PortalPuts(job.orderId));
  }

  lemma FrontUploads(job: Job)
    ensures OnlyPuts(Planned(Front(job)))
  {
    if job.payload.Some? {
      if NamesOf(job.refs).Some? {
        ArchiveUploads(job.orderId, job.refs, ArchivedNames(job));
      }
      assert Uploading(ArchiveSteps(job));
      DeliveryUploads(job, job.payload.value);
      PortalUploads(job, job.payload.value);
      UploadingConcat(Calls(3), ArchiveSteps(job));
      UploadingConcat(Calls(3) + ArchiveSteps(job), DeliverySteps(job, job.payload.value));
      UploadingConcat(Calls(3) + ArchiveSteps(job) + DeliverySteps(job, job.payload.value),
                      PortalSteps(job, job.payload.value));
    }
    UploadingPlansPuts(Front(job));
  }

  // ---------- what a run leaves behind ----------

  /** The rows written to the database, in order. */
  function Rows(events: seq<Event>): seq<OrderRow> {
    if events == [] then [] else
      var e := events[|events| - 1];
      Rows(events[..|events| - 1]) + if e.Saved? then [e.row] else []
  }

  /** The mails sent, in order. */
  function Mails(events: seq<Event>): seq<Event> {
    if events == [] then [] else
      var e := events[|events| - 1];
      Mails(events[..|events| - 1]) + if e.ReadyMail? || e.FailureMail? then [e] else []
  }

  lemma {:induction false} PutsLeaveNoRows(events: seq<Event>, puts: seq<Event>)
    requires OnlyPuts(puts)
    ensures Rows(events + puts) == Rows(events) && Mails(events + puts) == Mails(events)
  {
    if puts == [] {
      assert events + puts == events;
    } else {
      var n := |puts| - 1;
      assert (events + puts)[..|events| + n] == events + puts[..n];
      PutsLeaveNoRows(events, puts[..n]);
      assert Rows(events) + [] == Rows(events) && Mails(events) + [] == Mails(events);
    }
  }

  function Once<T>(took: bool, x: T): seq<T> {
    if took then [x] else []
  }

  /** The call took effect, whether or not it then raised. */
  predicate TookEffect(faults: nat -> Outcome, at: nat) {
    !faults(at).RaisedBefore?
  }

  lemma LeaveRow(events: seq<Event>, row: OrderRow)
    ensures Rows(events + [Saved(row)]) == Rows(events) + [row] && Mails(events + [Saved(row)]) == Mails(events)
  {
    assert (events + [Saved(row)])[..|events|] == events;
    assert Mails(events) + [] == Mails(events);
  }

  lemma LeaveMail(events: seq<Event>, e: Event)
    requires e.ReadyMail? || e.FailureMail?
    ensures Rows(events + [e]) == Rows(events) && Mails(events + [e]) == Mails(events) + [e]
  {
    assert (events + [e])[..|events|] == events;
    assert Rows(events) + [] == Rows(events);
  }

  lemma SaveLeaves(row: OrderRow, log: Log)
    ensures var log' := Try(Effect(Saved(row)), log).1;
            && Rows(log'.events) == Rows(log.events) + Once(TookEffect(log.faults, log.calls), row)
            && Mails(log'.events) == Mails(log.events)
            && log'.faults == log.faults && log'.calls == log.calls + 1
  {
    LeaveRow(log.events, row);
    assert Rows(log.events) + [] == Rows(log.events);
  }

  lemma MailLeaves(e: Event, log: Log)
    requires e.ReadyMail? || e.FailureMail?
    ensures var log' := Try(Effect(e), log).1;
            && Rows(log'.events) == Rows(log.events)
            && Mails(log'.events) == Mails(log.events) + Once(TookEffect(log.faults, log.calls), e)
            && log'.faults == log.faults && log'.calls == log.calls + 1
  {
    LeaveMail(log.events, e);
    assert Mails(log.events) + [] == Mails(log.events);
  }

  /** A script of uploads that runs to its end. */
  ghost predicate RunsThrough(steps: seq<Step>, log: Log) {
    !Stops(steps) && AllDone(log.faults, log.calls, |steps|)
  }

  lemma UploadsLeave(front: seq<Step>, log: Log)
    requires OnlyPuts(Planned(front))
    ensures var ran := RunSteps(front, log);
            && Rows(ran.1.events) == Rows(log.events) && Mails(ran.1.events) == Mails(log.events)
            && ran.1.faults == log.faults
            && (ran.0 <==> RunsThrough(front, log))
            && (ran.0 ==> ran.1.calls == log.calls + |front| && ran.1.events == log.events + Planned(front))
  {
    var k := EffectsArePrefix(front, log);
    PutsLeaveNoRows(log.events, Planned(front)[..k]);
    SucceedsIff(front, log);
    assert Planned(front)[..|Planned(front)|] == Planned(front);
  }

  lemma MailOrNot(log: Log, front: (bool, Log))
    requires Rows(front.1.events) == Rows(log.events) && Mails(front.1.events) == Mails(log.events)
    requires front.1.faults == log.faults
    ensures var ran := if front.0 then Try(Effect(ReadyMail), front.1) else front;
            && Rows(ran.1.events) == Rows(log.events)
            && Mails(ran.1.events)
               == Mails(log.events) + Once(front.0 && TookEffect(log.faults, front.1.calls), ReadyMail)
            && ran.1.faults == log.faults
            && (ran.0 <==> front.0 && log.faults(front.1.calls).Done?)
            && (ran.0 ==> ran.1.events == front.1.events + [ReadyMail])
  {
    if front.0 {
      MailLeaves(ReadyMail, front.1);
    } else {
      assert Mails(log.events) + [] == Mails(log.events);
    }
  }

  lemma MailStep(front: seq<Step>, log: Log)
    ensures RunSteps(front + [Effect(ReadyMail)], log)
         == if RunSteps(front, log).0 then Try(Effect(ReadyMail), RunSteps(front, log).1) else RunSteps(front, log)
  {
    RunConcat(front, [Effect(ReadyMail)], log);
    assert [Effect(ReadyMail)][1..] == [];
  }

  /** Uploads, then the mail: what is left behind, and when the mail goes out. */
  lemma UploadsThenMailLeave(front: seq<Step>, log: Log)
    requires OnlyPuts(Planned(front))
    ensures var ran := RunSteps(front + [Effect(ReadyMail)], log);
            && Rows(ran.1.events) == Rows(log.events)
            && Mails(ran.1.events)
               == Mails(log.events)
                  + Once(RunsThrough(front, log) && TookEffect(log.faults, log.calls + |front|), ReadyMail)
            && ran.1.faults == log.faults
            && (ran.0 <==> RunsThrough(front, log) && log.faults(log.calls + |front|).Done?)
            && (ran.0 ==> ran.1.events == log.events + Planned(front) + [ReadyMail])
  {
    UploadsLeave(front, log);
    MailStep(front, log);
    MailOrNot(log, RunSteps(front, log));
  }

  // ---------- any script's run ----------

  /** The log right after the order was saved as running. */
  function Started(log: Log, running: OrderRow): Log {
    Log(log.faults, log.calls + 1, [Saved(running)])
  }

  lemma StartedLeaves(log: Log, running: OrderRow)
    ensures Rows(Started(log, running).events) == [running] && Mails(Started(log, running).events) == []
  {
    LeaveRow([], running);
    assert [] + [Saved(running)] == [Saved(running)];
  }

  /** How a run starts: an empty log, and a script of uploads that stops when the payload is invalid. */
  ghost predicate Ready(front: seq<Step>, ends: Ends, log: Log) {
    log.events == [] && OnlyPuts(Planned(front)) && (!ends.valid ==> Stops(front))
  }

  /** Nothing raised up to and including the mail. */
  ghost predicate Delivered(front: seq<Step>, log: Log) {
    !Stops(front) && AllDone(log.faults, log.calls, |front| + 2)
  }

  /** The ready mail went out. */
  ghost predicate ReadyMailed(front: seq<Step>, log: Log) {
    !Stops(front) && AllDone(log.faults, log.calls, |front| + 1) && TookEffect(log.faults, log.calls + 1 + |front|)
  }

  /** The pipeline's own run. */
  function Ran(front: seq<Step>, ends: Ends, log: Log): (bool, Log) {
    RunSteps(front + [Effect(ReadyMail)], Started(log, ends.running))
  }

  /** The call that saves the order's last row. */
  function LastSave(front: seq<Step>, ends: Ends, log: Log): nat {
    Ran(front, ends, log).1.calls
  }

  /** A failure mail needs the failed row saved and a valid payload. */
  predicate FailureMailed(ends: Ends, ran: (bool, Log)) {
    !ran.0 && ends.valid && ran.1.faults(ran.1.calls).Done? && TookEffect(ran.1.faults, ran.1.calls + 1)
  }

  lemma PlayAfterStart(front: seq<Step>, ends: Ends, log: Log)
    requires log.events == [] && log.faults(log.calls).Done?
    ensures Play(front, ends, log) == PlayEnd(ends, Ran(front, ends, log))
  {
    assert [] + [Saved(ends.running)] == [Saved(ends.running)];
  }

  lemma AllDoneParts(faults: nat -> Outcome, start: nat, n: nat)
    ensures AllDone(faults, start, n + 1) <==> faults(start).Done? && AllDone(faults, start + 1, n)
    ensures AllDone(faults, start, n + 1) <==> AllDone(faults, start, n) && faults(start + n).Done?
  {
  }

  lemma RanLeaves(front: seq<Step>, ends: Ends, log: Log)
    requires Ready(front, ends, log) && log.faults(log.calls).Done?
    ensures var ran := Ran(front, ends, log);
            && Rows(ran.1.events) == [ends.running] && Mails(ran.1.events) == Once(ReadyMailed(front, log), ReadyMail)
            && ran.1.faults == log.faults
            && (ran.0 ==> ran.1.events == [Saved(ends.running)] + Planned(front) + [ReadyMail])
  {
    StartedLeaves(log, ends.running);
    ReadyMailedIs(front, ends, log);
    UploadsThenMailLeave(front, Started(log, ends.running));
    NothingBefore(Once(ReadyMailed(front, log), ReadyMail));
  }

  lemma NothingBefore<T>(xs: seq<T>)
    ensures [] + xs == xs
  {
  }

  lemma ReadyMailedIs(front: seq<Step>, ends: Ends, log: Log)
    requires log.faults(log.calls).Done?
    ensures var began := Started(log, ends.running);
            ReadyMailed(front, log) <==> RunsThrough(front, began) && TookEffect(log.faults, began.calls + |front|)
  {
    AllDoneParts(log.faults, log.calls, |front|);
  }

  lemma RanIff(front: seq<Step>, ends: Ends, log: Log)
    requires log.faults(log.calls).Done?
    ensures Ran(front, ends, log).0 <==> Delivered(front, log)
  {
    var steps := front + [Effect(ReadyMail)];
    SucceedsIff(steps, Started(log, ends.running));
    StopsConcat(front, [Effect(ReadyMail)]);
    OnePlan(ReadyMail);
    AllDoneParts(log.faults, log.calls, |front| + 1);
  }

  /** What the last save, and after a failure the failure mail, leave behind. */
  lemma EndLeaves(ends: Ends, ran: (bool, Log))
    ensures var x := PlayEnd(ends, ran);
            && Rows(x.log.events) == Rows(ran.1.events) + Once(TookEffect(ran.1.faults, ran.1.calls), x.order)
            && Mails(x.log.events) == Mails(ran.1.events) + Once(FailureMailed(ends, ran), FailureMail)
            && x.order == if ran.0 then ends.complete else ends.failed
  {
    if ran.0 {
      SaveLeaves(ends.complete, ran.1);
      assert Mails(ran.1.events) + [] == Mails(ran.1.events);
    } else {
      SaveLeaves(ends.failed, ran.1);
      var saved := Try(Effect(Saved(ends.failed)), ran.1);
      if saved.0 && ends.valid {
        MailLeaves(FailureMail, saved.1);
      } else {
        assert Mails(ran.1.events) + [] == Mails(ran.1.events);
      }
    }
  }

  /** What every run leaves in the database and in the inbox, whatever fails. */
  lemma PlayLeaves(front: seq<Step>, ends: Ends, log: Log)
    requires Ready(front, ends, log) && log.faults(log.calls).Done?
    ensures var x, ran := Play(front, ends, log), Ran(front, ends, log);
            && x.order == (if ran.0 then ends.complete else ends.failed)
            && Rows(x.log.events) == [ends.running] + Once(TookEffect(log.faults, ran.1.calls), x.order)
            && Mails(x.log.events)
               == Once(ReadyMailed(front, log), ReadyMail) + Once(FailureMailed(ends, ran), FailureMail)
  {
    PlayAfterStart(front, ends, log);
    RanLeaves(front, ends, log);
    EndLeaves(ends, Ran(front, ends, log));
  }

  lemma PlayNeverStarts(front: seq<Step>, ends: Ends, log: Log)
    requires log.events == [] && !log.faults(log.calls).Done?
    ensures var x := Play(front, ends, log);
            && x.order == ends.running && !x.returned
            && Rows(x.log.events) == Once(TookEffect(log.faults, log.calls), ends.running) && Mails(x.log.events) == []
    ensures !Delivered(front, log) && !ReadyMailed(front, log)
  {
    SaveLeaves(ends.running, log);
    assert [] + Once(TookEffect(log.faults, log.calls), ends.running)
        == Once(TookEffect(log.faults, log.calls), ends.running);
  }

  /** A run that ends complete has done everything, in order. */
  lemma PlayComplete(front: seq<Step>, ends: Ends, log: Log)
    requires Ready(front, ends, log) && log.faults(log.calls).Done? && Ran(front, ends, log).0
    ensures Play(front, ends, log).log.events
         == [Saved(ends.running)] + Planned(front) + [ReadyMail]
            + Once(TookEffect(log.faults, LastSave(front, ends, log)), Saved(ends.complete))
  {
    PlayAfterStart(front, ends, log);
    RanLeaves(front, ends, log);
    EndEvents(ends, Ran(front, ends, log));
  }

  lemma EndEvents(ends: Ends, ran: (bool, Log))
    requires ran.0
    ensures PlayEnd(ends, ran).log.events
         == ran.1.events + Once(TookEffect(ran.1.faults, ran.1.calls), Saved(ends.complete))
  {
    assert ran.1.events + [] == ran.1.events;
  }

  /** The three rows a run can save are told apart by their status. */
  ghost predicate ProperEnds(ends: Ends) {
    ends.running.status.Running? && ends.complete.status.Complete? && ends.failed.status.Failed?
  }

  /** Saved as running, then at most once more, as how the pipeline ended. */
  lemma PlayRows(front: seq<Step>, ends: Ends, log: Log)
    requires Ready(front, ends, log)
    ensures var rows := Rows(Play(front, ends, log).log.events);
            && |rows| <= 2
            && (|rows| >= 1 ==> rows[0] == ends.running)
            && (|rows| == 2 ==> rows[1] == if Delivered(front, log) then ends.complete else ends.failed)
  {
    if log.faults(log.calls).Done? {
      PlayLeaves(front, ends, log);
      RanIff(front, ends, log);
    } else {
      PlayNeverStarts(front, ends, log);
    }
  }

  lemma PlayMails(front: seq<Step>, ends: Ends, log: Log)
    requires Ready(front, ends, log)
    ensures var mails := Mails(Play(front, ends, log).log.events);
            && (ReadyMail in mails <==> ReadyMailed(front, log))
            && (ReadyMail in mails ==> mails[0] == ReadyMail && ReadyMail !in mails[1..])
            && (log.faults(log.calls).Done? ==> (FailureMail in mails <==> FailureMailed(ends, Ran(front, ends, log))))
  {
    if log.faults(log.calls).Done? {
      PlayLeaves(front, ends, log);
    } else {
      PlayNeverStarts(front, ends, log);
    }
  }

  /** How the run leaves the order in memory. */
  lemma PlayOrder(front: seq<Step>, ends: Ends, log: Log)
    requires Ready(front, ends, log)
    ensures Play(front, ends, log).order
         == if !log.faults(log.calls).Done? then ends.running
            else if Delivered(front, log) then ends.complete else ends.failed
  {
    if log.faults(log.calls).Done? {
      PlayLeaves(front, ends, log);
      RanIff(front, ends, log);
    } else {
      PlayNeverStarts(front, ends, log);
    }
  }

  lemma ReadyNotDelivered(front: seq<Step>, log: Log)
    ensures ReadyMailed(front, log) && !Delivered(front, log) <==>
      !Stops(front) && AllDone(log.faults, log.calls, |front| + 1) && log.faults(log.calls + 1 + |front|).RaisedAfter?
    ensures ReadyMailed(front, log) ==> log.faults(log.calls).Done?
  {
    AllDoneParts(log.faults, log.calls, |front| + 1);
  }

  lemma PlayFailedYetReady(front: seq<Step>, ends: Ends, log: Log)
    requires Ready(front, ends, log) && ProperEnds(ends)
    ensures var x := Play(front, ends, log);
            x.order.status.Failed? && ReadyMail in Mails(x.log.events) <==>
              ReadyMailed(front, log) && !Delivered(front, log)
  {
    PlayMails(front, ends, log);
    PlayOrder(front, ends, log);
    ReadyNotDelivered(front, log);
  }

  lemma PlayFailureMail(front: seq<Step>, ends: Ends, log: Log)
    requires Ready(front, ends, log) && log.faults(log.calls).Done?
    ensures var last := LastSave(front, ends, log);
            FailureMail in Mails(Play(front, ends, log).log.events) <==>
              !Delivered(front, log) && ends.valid && log.faults(last).Done? && TookEffect(log.faults, last + 1)
  {
    PlayMails(front, ends, log);
    RanLeaves(front, ends, log);
    RanIff(front, ends, log);
  }

  /** Every saved row is the one its status says. */
  lemma PlayRowIs(front: seq<Step>, ends: Ends, log: Log, row: OrderRow)
    requires Ready(front, ends, log) && ProperEnds(ends) && row in Rows(Play(front, ends, log).log.events)
    ensures row.status.Failed? ==> row == ends.failed
    ensures row.status.Complete? ==> row == ends.complete && Play(front, ends, log).order == ends.complete
  {
    PlayRows(front, ends, log);
    PlayOrder(front, ends, log);
  }

  /** Only rows that end the run say when. */
  ghost predicate TimedEnds(ends: Ends) {
    ends.running.completedAt.None? && ends.complete.completedAt.Some? && ends.failed.completedAt.Some?
  }

  lemma PlayLifecycle(front: seq<Step>, ends: Ends, log: Log)
    requires Ready(front, ends, log) && ProperEnds(ends) && TimedEnds(ends)
    ensures var rows := Rows(Play(front, ends, log).log.events);
            && |rows| <= 2
            && (|rows| >= 1 ==> rows[0].status == Running)
            && (|rows| == 2 ==> rows[1].status == if Delivered(front, log) then Complete else Failed)
            && forall i :: 0 <= i < |rows| ==> (rows[i].completedAt.Some? <==> rows[i].status in {Complete, Failed})
  {
    PlayRows(front, ends, log);
  }

  // ---------- what comes first ----------

  /** One of the next three calls does not return. */
  ghost predicate SetupFails(log: Log) {
    !AllDone(log.faults, log.calls, 3)
  }

  /**
   Nothing is uploaded or sent before the bucket, the sender and edp-api have answered: a failure of one of
   these three calls, or an invalid payload, ends the pipeline without an effect.
   */
  lemma SetupComesFirst(job: Job, log: Log)
    requires job.payload.None? || SetupFails(log)
    ensures !RunSteps(Pipeline(job), log).0 && RunSteps(Pipeline(job), log).1.events == log.events
  {
    var head := if job.payload.None? then Calls(2) + [Stop] else Calls(3);
    var rest := PipelineAfterSetup(job);
    RunConcat(head, rest, log);
    SetupHasNoEffect(job, head, log);
  }

  lemma PipelineAfterSetup(job: Job) returns (rest: seq<Step>)
    ensures Pipeline(job) == (if job.payload.None? then Calls(2) + [Stop] else Calls(3)) + rest
  {
    if job.payload.None? {
      rest := [Effect(ReadyMail)];
    } else {
      var archive, delivery := ArchiveSteps(job), DeliverySteps(job, job.payload.value);
      var portal := PortalSteps(job, job.payload.value);
      rest := archive + delivery + portal + [Effect(ReadyMail)];
      assert Calls(3) + archive + delivery + portal + [Effect(ReadyMail)] == Calls(3) + rest;
    }
  }

  lemma SetupHasNoEffect(job: Job, head: seq<Step>, log: Log)
    requires head == if job.payload.None? then Calls(2) + [Stop] else Calls(3)
    requires job.payload.None? || SetupFails(log)
    ensures !RunSteps(head, log).0 && RunSteps(head, log).1.events == log.events
  {
    CallsPlanNothing(2);
    CallsPlanNothing(3);
    StopsConcat(Calls(2), [Stop]);
    PlannedConcat(Calls(2), [Stop]);
    SucceedsIff(head, log);
    var k := EffectsArePrefix(head, log);
    assert log.events + [] == log.events;
  }

  // ---------- which call is the last save ----------

  /** The first `k` steps are calls that return, and the next one, if there is one, does not. */
  ghost predicate BreaksAt(steps: seq<Step>, faults: nat -> Outcome, start: nat, k: nat) {
    && k <= |steps|
    && (forall i :: 0 <= i < k ==> steps[i].Call? && faults(start + i).Done?)
    && (k < |steps| ==> steps[k].Stop? || !faults(start + k).Done?)
  }

  lemma BreaksLater(steps: seq<Step>, faults: nat -> Outcome, start: nat, k: nat)
    requires BreaksAt(steps, faults, start, k) && k > 0
    ensures BreaksAt(steps[1..], faults, start + 1, k - 1)
    ensures steps[0].Call? && faults(start).Done?
  {
    assert steps[0].Call? && faults(start + 0).Done?;
    assert k < |steps| ==> steps[1..][k - 1] == steps[k] && start + 1 + (k - 1) == start + k;
    forall i | 0 <= i < k - 1 ensures steps[1..][i].Call? && faults(start + 1 + i).Done? {
      assert steps[i + 1].Call? && faults(start + (i + 1)).Done?;
    }
  }

  /** How many calls a script makes: those that return, and the one that raises. */
  lemma {:induction false} CallsMade(steps: seq<Step>, log: Log, k: nat)
    requires BreaksAt(steps, log.faults, log.calls, k)
    ensures RunSteps(steps, log).1.calls == log.calls + k + (if k < |steps| && steps[k].Call? then 1 else 0)
  {
    if k > 0 {
      BreaksLater(steps, log.faults, log.calls, k);
      CallsMade(steps[1..], Try(steps[0], log).1, k - 1);
    }
  }

  // ---------- main results ----------

  lemma JobIsReady(job: Job, at: int, order: OrderRow, log: Log)
    requires log.events == []
    ensures Ready(Front(job), EndsOf(job, at, order), log) && ProperEnds(EndsOf(job, at, order))
  {
    FrontUploads(job);
    StopsIff(job);
  }

  /**
   An order is saved as RUNNING, then at most once more: as COMPLETE exactly when nothing raised, as
   FAILED otherwise. `completed_at` is set in exactly the terminal rows.
   */
  lemma Lifecycle(job: Job, at: int, order: OrderRow, log: Log)
    requires log.events == [] && order.completedAt.None?
    ensures var rows := Rows(Executed(job, at, order, log).log.events);
            && |rows| <= 2
            && (|rows| >= 1 ==> rows[0].status == Running)
            && (|rows| == 2 ==> rows[1].status == if Delivered(Front(job), log) then Complete else Failed)
            && forall i :: 0 <= i < |rows| ==> (rows[i].completedAt.Some? <==> rows[i].status in {Complete, Failed})
  {
    JobIsReady(job, at, order, log);
    PlayLifecycle(Front(job), EndsOf(job, at, order), log);
  }

  /** Nothing raises exactly when the job's own conditions hold and every call returns. */
  lemma DeliveredIff(job: Job, log: Log)
    ensures Delivered(Front(job), log) <==> CanSucceed(job) && AllDone(log.faults, log.calls, |Front(job)| + 2)
  {
    StopsIff(job);
  }

  /**
   The ready mail goes out at most once, before any other, exactly when everything before it returned
   and its own call got as far as delivering.
   */
  lemma ReadyMailIff(job: Job, at: int, order: OrderRow, log: Log)
    requires log.events == []
    ensures var mails := Mails(Executed(job, at, order, log).log.events);
            && (ReadyMail in mails <==> ReadyMailed(Front(job), log))
            && (ReadyMail in mails ==> mails[0] == ReadyMail && ReadyMail !in mails[1..])
  {
    JobIsReady(job, at, order, log);
    PlayMails(Front(job), EndsOf(job, at, order), log);
  }

  /**
   FAILED does not mean that no ready mail went out: it did exactly when everything before the mail
   returned and the mail's own call raised after sending.
   */
  lemma FailedYetReadyIff(job: Job, at: int, order: OrderRow, log: Log)
    requires log.events == []
    ensures var x := Executed(job, at, order, log);
            x.order.status.Failed? && ReadyMail in Mails(x.log.events) <==>
              && CanSucceed(job) && AllDone(log.faults, log.calls, |Front(job)| + 1)
              && log.faults(log.calls + 1 + |Front(job)|).RaisedAfter?
  {
    JobIsReady(job, at, order, log);
    PlayFailedYetReady(Front(job), EndsOf(job, at, order), log);
    ReadyNotDelivered(Front(job), log);
    StopsIff(job);
  }

  /** `execute` returns exactly when the order's last row was saved and, after a failure, the contact was told. */
  lemma ReturnsIff(job: Job, at: int, order: OrderRow, log: Log)
    requires log.events == []
    ensures var last := LastSave(Front(job), EndsOf(job, at, order), log);
            Executed(job, at, order, log).returned <==>
              && log.faults(log.calls).Done? && log.faults(last).Done?
              && (Delivered(Front(job), log) || (job.payload.Some? && log.faults(last + 1).Done?))
  {
    JobIsReady(job, at, order, log);
    if log.faults(log.calls).Done? {
      PlayReturns(Front(job), EndsOf(job, at, order), log);
    } else {
      PlayNeverStarts(Front(job), EndsOf(job, at, order), log);
    }
  }

  lemma PlayReturns(front: seq<Step>, ends: Ends, log: Log)
    requires Ready(front, ends, log) && log.faults(log.calls).Done?
    ensures var last := LastSave(front, ends, log);
            Play(front, ends, log).returned <==>
              log.faults(last).Done? && (Delivered(front, log) || (ends.valid && log.faults(last + 1).Done?))
  {
    PlayAfterStart(front, ends, log);
    RanLeaves(front, ends, log);
    RanIff(front, ends, log);
  }

  lemma FailedYetReadyExample(job: Job, at: int, order: OrderRow)
    requires CanSucceed(job)
    ensures var x := Executed(job, at, order, Log(n => if n == 1 + |Front(job)| then RaisedAfter else Done, 0, []));
            x.order.status.Failed? && ReadyMail in Mails(x.log.events)
  {
    FailedYetReadyIff(job, at, order, Log(n => if n == 1 + |Front(job)| then RaisedAfter else Done, 0, []));
  }

  /**
   The last save's place among the calls: after the first save, the pipeline's calls that returned, and
   the one that raised if a call did.
   */
  lemma LastSaveIs(job: Job, at: int, order: OrderRow, log: Log, k: nat)
    requires BreaksAt(Pipeline(job), log.faults, log.calls + 1, k)
    ensures LastSave(Front(job), EndsOf(job, at, order), log)
         == log.calls + 1 + k + (if k < |Pipeline(job)| && Pipeline(job)[k].Call? then 1 else 0)
  {
    CallsMade(Pipeline(job), Started(log, EndsOf(job, at, order).running), k);
  }

  /**
   The contact is told of a failure exactly when the order was started and its FAILED row's save returned,
   the payload validates, and the mail call delivered: an invalid payload fails the order without a word.
   */
  lemma FailureMailIff(job: Job, at: int, order: OrderRow, log: Log)
    requires log.events == []
    ensures var last := LastSave(Front(job), EndsOf(job, at, order), log);
            FailureMail in Mails(Executed(job, at, order, log).log.events) <==>
              && log.faults(log.calls).Done? && !Delivered(Front(job), log) && job.payload.Some?
              && log.faults(last).Done? && TookEffect(log.faults, last + 1)
  {
    JobIsReady(job, at, order, log);
    if log.faults(log.calls).Done? {
      PlayFailureMail(Front(job), EndsOf(job, at, order), log);
    } else {
      PlayNeverStarts(Front(job), EndsOf(job, at, order), log);
    }
  }

  /**
   The database is left at RUNNING exactly when the first save wrote, and it raised after writing or the
   last save raised before: the ready mail may well have gone out.
   */
  lemma LeftRunningIff(job: Job, at: int, order: OrderRow, log: Log)
    requires log.events == []
    ensures Rows(Executed(job, at, order, log).log.events) == [order.(status := Running)] <==>
      && TookEffect(log.faults, log.calls)
      && (log.faults(log.calls).Done? ==> log.faults(LastSave(Front(job), EndsOf(job, at, order), log)).RaisedBefore?)
  {
    JobIsReady(job, at, order, log);
    if log.faults(log.calls).Done? {
      PlayLeaves(Front(job), EndsOf(job, at, order), log);
    } else {
      PlayNeverStarts(Front(job), EndsOf(job, at, order), log);
    }
  }

  /** A FAILED row records no delivery and no artifacts: those fields stay as they were. */
  lemma FailedRecordsNothing(job: Job, at: int, order: OrderRow, log: Log, row: OrderRow)
    requires log.events == []
    requires var x := Executed(job, at, order, log);
             row.status.Failed? && (row in Rows(x.log.events) || row == x.order)
    ensures row == order.(status := Failed, completedAt := Some(at))
  {
    JobIsReady(job, at, order, log);
    PlayOrder(Front(job), EndsOf(job, at, order), log);
    if row in Rows(Executed(job, at, order, log).log.events) {
      PlayRowIs(Front(job), EndsOf(job, at, order), log, row);
    }
  }

  /** Everything a complete order leaves behind, in order. */
  function CompletePlan(job: Job, running: OrderRow): seq<Event>
    requires job.payload.Some?
  {
    [Saved(running)] + (ArchivePuts(job.orderId, job.refs, ArchivedNames(job))
    + [DeliveryPut(job, job.payload.value)] + PortalEvents(job.orderId)) + [ReadyMail]
  }

  /**
   A COMPLETE order archived every file, a DTM among them, uploaded its template or ISO, then its zip,
   manifest and index, and only then sent its one mail.
   */
  lemma CompleteIsDelivered(job: Job, at: int, order: OrderRow, log: Log)
    requires log.events == [] && Executed(job, at, order, log).order.status.Complete?
    ensures job.payload.Some? && HasDtm(job.refs)
    ensures var x := Executed(job, at, order, log);
            && x.order == EndsOf(job, at, order).complete
            && x.log.events
               == CompletePlan(job, order.(status := Running))
                  + Once(TookEffect(log.faults, LastSave(Front(job), EndsOf(job, at, order), log)), Saved(x.order))
  {
    JobIsReady(job, at, order, log);
    StopsIff(job);
    if log.faults(log.calls).Done? {
      PlayLeaves(Front(job), EndsOf(job, at, order), log);
      RanIff(Front(job), EndsOf(job, at, order), log);
      PlayComplete(Front(job), EndsOf(job, at, order), log);
    } else {
      PlayNeverStarts(Front(job), EndsOf(job, at, order), log);
    }
  }

  /** Of the template and the ISO a complete run uploads the one its partition asks for. */
  lemma UploadedIff(job: Job, running: OrderRow, saved: seq<Event>, e: Event)
    requires job.payload.Some? && (forall i :: 0 <= i < |saved| ==> saved[i].Saved?)
    requires e.Put? && (e.content.Iso? || e.content.Template?)
    ensures e in CompletePlan(job, running) + saved <==> e == DeliveryPut(job, job.payload.value)
  {
    var puts, put := ArchivePuts(job.orderId, job.refs, ArchivedNames(job)), DeliveryPut(job, job.payload.value);
    var body := puts + [put] + PortalEvents(job.orderId);
    assert e !in puts && e !in PortalEvents(job.orderId) && e !in saved;
    assert e in body <==> e == put;
    assert e in [Saved(running)] + body <==> e in body;
  }

  lemma CompleteRow(job: Job, at: int, order: OrderRow, log: Log, row: OrderRow)
    requires log.events == [] && row in Rows(Executed(job, at, order, log).log.events) && row.status.Complete?
    ensures Executed(job, at, order, log).order.status.Complete? && row == EndsOf(job, at, order).complete
  {
    JobIsReady(job, at, order, log);
    PlayRowIs(Front(job), EndsOf(job, at, order), log, row);
  }

  /**
   Every COMPLETE row a run saves names what that run uploaded: the template's URL exactly when the
   template was put at ems-stack.yaml, the ISO's exactly when the ISO was put at arcnode-ems.iso, and
   one of the two, as the customer's partition says.
   */
  lemma CompleteDelivery(job: Job, at: int, order: OrderRow, log: Log, row: OrderRow)
    requires log.events == [] && row in Rows(Executed(job, at, order, log).log.events) && row.status.Complete?
    ensures var events := Executed(job, at, order, log).log.events;
            var template := "orders/" + job.orderId + "/" + "ems-stack.yaml";
            var iso := "orders/" + job.orderId + "/" + "arcnode-ems.iso";
            && row.completedAt == Some(at) && row.deploymentUuid == Some(job.orderId)
            && row.delivery.Some?
            && row.delivery.value.templateUrl
               == (if Put(template, Template) in events then Some(job.publicUrl(template)) else None)
            && row.delivery.value.isoUrl == (if Put(iso, Iso) in events then Some(job.publicUrl(iso)) else None)
            && (row.delivery.value.templateUrl.Some? <==> row.delivery.value.isoUrl.None?)
    ensures job.payload.Some? && row.delivery.Some?
    ensures var partition, path := job.payload.value.partition, row.delivery.value.path;
            && (partition.Standard? <==> path.CfnStandard?) && (partition.Govcloud? <==> path.CfnGovcloud?)
            && (partition.NoAws? <==> path.ApplianceIso?) && (path.ApplianceIso? <==> row.delivery.value.isoUrl.Some?)
  {
    CompleteRow(job, at, order, log, row);
    CompleteUploads(job, at, order, log);
  }

  /**
   And it keeps the files it archived: one artifact per file edp-api made, of the same kind and format, at
   the public URL of the very key the run put that file under.
   */
  lemma CompleteArtifacts(job: Job, at: int, order: OrderRow, log: Log, row: OrderRow)
    requires log.events == [] && row in Rows(Executed(job, at, order, log).log.events) && row.status.Complete?
    ensures |row.artifacts| == |job.refs|
    ensures forall i :: 0 <= i < |job.refs| ==>
      ArchivedAs(job, Executed(job, at, order, log).log.events, job.refs[i], ArchivedNames(job)[i], row.artifacts[i])
    ensures forall i :: 0 <= i < |job.refs| ==> NamedAfter(ArchivedNames(job)[i], FileName(job.refs[i].url))
  {
    CompleteRow(job, at, order, log, row);
    NamesWereFound(job, at, order, log);
    forall i | 0 <= i < |job.refs|
      ensures ArchivedAs(
        job, Executed(job, at, order, log).log.events, job.refs[i], ArchivedNames(job)[i], row.artifacts[i])
    {
      FileWasPut(job, at, order, log, i);
      RehomedAt(job, i);
    }
    forall i | 0 <= i < |job.refs| ensures NamedAfter(ArchivedNames(job)[i], FileName(job.refs[i].url)) {
      PathsAreNamedAfter(FileNames(UrlsOf(job.refs)), {}, i);
    }
  }

  /** The artifact is the file, moved to where the run put it. */
  predicate ArchivedAs(job: Job, events: seq<Event>, ref: Ref, name: string, artifact: Ref) {
    var key := "orders/" + job.orderId + "/" + name;
    && Put(key, Artifact(ref)) in events
    && artifact.kind == ref.kind && artifact.format == ref.format && artifact.url == job.publicUrl(key)
  }

  lemma RehomedAt(job: Job, i: nat)
    requires NamesOf(job.refs).Some? && i < |job.refs|
    ensures |Rehomed(job)| == |job.refs|
    ensures Rehomed(job)[i].kind == job.refs[i].kind && Rehomed(job)[i].format == job.refs[i].format
    ensures Rehomed(job)[i].url == job.publicUrl("orders/" + job.orderId + "/" + ArchivedNames(job)[i])
  {
    var name := ArchivedNames(job)[i];
    assert name == NamesOf(job.refs).value[i];
    assert Rehomed(job)[i] == job.refs[i].(url := job.publicUrl(Key(job.orderId, name)));
  }

  lemma NamesWereFound(job: Job, at: int, order: OrderRow, log: Log)
    requires log.events == [] && Executed(job, at, order, log).order.status.Complete?
    ensures NamesOf(job.refs).Some? && |Rehomed(job)| == |job.refs|
  {
    JobIsReady(job, at, order, log);
    PlayOrder(Front(job), EndsOf(job, at, order), log);
    DeliveredIff(job, log);
  }

  lemma FileWasPut(job: Job, at: int, order: OrderRow, log: Log, i: nat)
    requires log.events == [] && Executed(job, at, order, log).order.status.Complete? && i < |job.refs|
    ensures Put("orders/" + job.orderId + "/" + ArchivedNames(job)[i], Artifact(job.refs[i]))
            in Executed(job, at, order, log).log.events
  {
    CompleteIsDelivered(job, at, order, log);
    var puts := ArchivePuts(job.orderId, job.refs, ArchivedNames(job));
    var put := Put(Key(job.orderId, ArchivedNames(job)[i]), Artifact(job.refs[i]));
    assert puts[i] == put;
    PutIsInPlan(job, order.(status := Running), put);
  }

  lemma PutIsInPlan(job: Job, running: OrderRow, e: Event)
    requires job.payload.Some? && e in ArchivePuts(job.orderId, job.refs, ArchivedNames(job))
    ensures e in CompletePlan(job, running)
  {
  }

  lemma CompleteUploads(job: Job, at: int, order: OrderRow, log: Log)
    requires log.events == [] && Executed(job, at, order, log).order.status.Complete?
    ensures job.payload.Some?
    ensures var events := Executed(job, at, order, log).log.events;
            && (Put(Key(job.orderId, "ems-stack.yaml"), Template) in events <==> !job.payload.value.partition.NoAws?)
            && (Put(Key(job.orderId, "arcnode-ems.iso"), Iso) in events <==> job.payload.value.partition.NoAws?)
  {
    CompleteIsDelivered(job, at, order, log);
    var x := Executed(job, at, order, log);
    var saved := Once(TookEffect(log.faults, LastSave(Front(job), EndsOf(job, at, order), log)), Saved(x.order));
    UploadedIff(job, order.(status := Running), saved, Put(Key(job.orderId, "ems-stack.yaml"), Template));
    UploadedIff(job, order.(status := Running), saved, Put(Key(job.orderId, "arcnode-ems.iso"), Iso));
  }
}
