/** The orchestrator as it runs: methods that call the outside world and update the order in place. */
module OrderRun {
  import opened Wrappers
  import opened Text
  import opened UniquePath
  import opened Manifest
  import opened SiteIdentity
  import opened Orchestrator

  /** The outside world: which of its calls fail, and what they have done so far. */
  class World {
    const faults: nat -> Outcome
    var calls: nat
    var events: seq<Event>

    constructor (faults: nat -> Outcome)
      ensures View() == Log(faults, 0, [])
    {
      this.faults, calls, events := faults, 0, [];
    }

    function View(): Log
      reads this
    {
      Log(faults, calls, events)
    }

    /** One call; false when it raised. */
    method Attempt(effect: Option<Event>) returns (ok: bool)
      modifies this
      ensures (ok, View()) == Try(Call(effect), old(View()))
    {
      var outcome := faults(calls);
      calls := calls + 1;
      if effect.Some? && !outcome.RaisedBefore? {
        events := events + [effect.value];
      } else {
        assert events + [] == events;
      }
      ok := outcome.Done?;
    }

    /** Calls that leave nothing behind, until one raises. */
    method AttemptQuietly(n: nat) returns (ok: bool)
      modifies this
      ensures (ok, View()) == RunSteps(Calls(n), old(View()))
    {
      ok := true;
      var left := n;
      while left > 0 && ok
        invariant 0 <= left <= n
        invariant RunSteps(Calls(n), old(View())) == if ok then RunSteps(Calls(left), View()) else (false, View())
        decreases left, ok
      {
        assert Calls(left)[1..] == Calls(left - 1);
        ok := Attempt(None);
        left := left - 1;
      }
    }
  }

  class Order {
    var status: Status
    var completedAt: Option<int>
    var deploymentUuid: Option<string>
    var artifacts: seq<Ref>
    var delivery: Option<Delivery>

    constructor ()
      ensures Row() == OrderRow(Pending, None, None, [], None)
    {
      status, completedAt, deploymentUuid, artifacts, delivery := Pending, None, None, [], None;
    }

    function Row(): OrderRow
      reads this
    {
      OrderRow(status, completedAt, deploymentUuid, artifacts, delivery)
    }
  }

  lemma RunOne(step: Step, log: Log)
    ensures RunSteps([step], log) == Try(step, log)
  {
    assert [step][1..] == [];
  }

  lemma RunTwo(step: Step, rest: seq<Step>, log: Log)
    ensures RunSteps([step] + rest, log)
         == if Try(step, log).0 then RunSteps(rest, Try(step, log).1) else Try(step, log)
  {
    assert ([step] + rest)[1..] == rest;
  }

  class OrchestratorService {
    const world: World

    constructor (world: World)
      ensures this.world == world
    {
      this.world := world;
    }

    /** `_archive`: all the keys first, then one upload per file. */
    method Archive(job: Job) returns (ok: bool)
      modifies world
      ensures (ok, world.View()) == RunSteps(ArchiveSteps(job), old(world.View()))
    {
      var names := NamesOf(job.refs);
      if names.None? {
        RunOne(Stop, world.View());
        return false;
      }
      NamesFit(job.refs);
      ghost var all := ArchiveAll(job.orderId, job.refs, names.value);
      for i := 0 to |job.refs|
        invariant RunSteps(all, old(world.View()))
             == RunSteps(ArchiveAll(job.orderId, job.refs[i..], names.value[i..]), world.View())
      {
        ArchiveNext(job, names.value, i, world.View());
        if job.refs[i].format !in FORMATS {
          return false;
        }
        ok := world.Attempt(Some(Put(Key(job.orderId, names.value[i]), Artifact(job.refs[i]))));
        if !ok {
          return;
        }
      }
      ok := true;
    }

    /** `_find_dtm_url`: the first DTM's URL, if there is one. */
    method FindDtm(refs: seq<Ref>) returns (url: Option<string>)
      ensures url.Some? <==> HasDtm(refs)
      ensures url.Some? ==>
        exists i :: 0 <= i < |refs| && refs[i].kind == Dtm && refs[i].url == url.value
                    && forall j :: 0 <= j < i ==> refs[j].kind != Dtm
    {
      for i := 0 to |refs|
        invariant forall j :: 0 <= j < i ==> refs[j].kind != Dtm
      {
        if refs[i].kind == Dtm {
          return Some(refs[i].url);
        }
      }
      url := None;
    }

    /** `bake`: the base image, the archived topology, xorriso, the upload. */
    method Bake(job: Job) returns (ok: bool)
      modifies world
      ensures (ok, world.View())
           == RunSteps(Calls(1) + [if DtmReadable(job) then Call(None) else Stop] + Calls(1)
                       + [Effect(Put(Key(job.orderId, "arcnode-ems.iso"), Iso))], old(world.View()))
    {
      ghost var read := [if DtmReadable(job) then Call(None) else Stop];
      ghost var put := [Effect(Put(Key(job.orderId, "arcnode-ems.iso"), Iso))];
      RunConcat(Calls(1) + read + Calls(1), put, world.View());
      RunConcat(Calls(1) + read, Calls(1), world.View());
      RunConcat(Calls(1), read, world.View());
      ok := world.AttemptQuietly(1);
      if !ok {
        return;
      }
      RunOne(read[0], world.View());
      if !DtmReadable(job) {
        return false;
      }
      ok := world.Attempt(None);
      if !ok {
        return;
      }
      ok := world.AttemptQuietly(1);
      if !ok {
        return;
      }
      RunOne(put[0], world.View());
      ok := world.Attempt(Some(Put(Key(job.orderId, "arcnode-ems.iso"), Iso)));
    }

    /** `_build_delivery`: the slug first, then the DTM, then the ISO or the template. */
    method BuildDelivery(job: Job, payload: Payload) returns (ok: bool)
      modifies world
      ensures (ok, world.View()) == RunSteps(DeliverySteps(job, payload), old(world.View()))
    {
      var slug := SiteSlug(job.others, payload.siteName);
      if slug.None? {
        RunOne(Stop, world.View());
        return false;
      }
      var dtm := FindDtm(job.refs);
      if dtm.None? {
        RunOne(Stop, world.View());
        return false;
      }
      if payload.partition.NoAws? {
        ok := Bake(job);
        return;
      }
      ghost var put := [Effect(Put(Key(job.orderId, "ems-stack.yaml"), Template))];
      RunConcat(Calls(1), put, world.View());
      ok := world.AttemptQuietly(1);
      if !ok {
        return;
      }
      RunOne(put[0], world.View());
      ok := world.Attempt(Some(Put(Key(job.orderId, "ems-stack.yaml"), Template)));
    }

    /** The zip, the manifest and the page, in this order. */
    method UploadPortal(orderId: string) returns (ok: bool)
      modifies world
      ensures (ok, world.View()) == RunSteps(PortalPuts(orderId), old(world.View()))
    {
      ghost var puts := PortalPuts(orderId);
      assert puts == [puts[0]] + ([puts[1]] + [puts[2]]);
      RunTwo(puts[0], [puts[1]] + [puts[2]], world.View());
      ok := world.Attempt(Some(Put(Key(orderId, "arcnode.zip"), Zip)));
      if !ok {
        return;
      }
      RunTwo(puts[1], [puts[2]], world.View());
      ok := world.Attempt(Some(Put(Key(orderId, "manifest.json"), ManifestJson)));
      if !ok {
        return;
      }
      RunOne(puts[2], world.View());
      ok := world.Attempt(Some(Put(Key(orderId, "index.html"), IndexHtml)));
    }

    method PublishPortal(job: Job, payload: Payload) returns (ok: bool)
      modifies world
      ensures (ok, world.View()) == RunSteps(PortalSteps(job, payload), old(world.View()))
    {
      var n := HeadCalls(payload) + 1 + FileCount(job, payload);
      RunConcat(Calls(n) + PortalPuts(job.orderId), Calls(1), world.View());
      RunConcat(Calls(n), PortalPuts(job.orderId), world.View());
      ok := world.AttemptQuietly(n);
      if !ok {
        return;
      }
      ok := UploadPortal(job.orderId);
      if !ok {
        return;
      }
      ok := world.AttemptQuietly(1);
    }

    /** Everything before the mail. */
    method Prepare(job: Job) returns (ok: bool)
      modifies world
      ensures (ok, world.View()) == RunSteps(Front(job), old(world.View()))
    {
      if job.payload.None? {
        RunConcat(Calls(2), [Stop], world.View());
        ok := world.AttemptQuietly(2);
        RunOne(Stop, world.View());
        return false;
      }
      var payload := job.payload.value;
      RunConcat(Calls(3) + ArchiveSteps(job) + DeliverySteps(job, payload), PortalSteps(job, payload), world.View());
      RunConcat(Calls(3) + ArchiveSteps(job), DeliverySteps(job, payload), world.View());
      RunConcat(Calls(3), ArchiveSteps(job), world.View());
      ok := world.AttemptQuietly(3);
      if ok {
        ok := Archive(job);
      }
      if ok {
        ok := BuildDelivery(job, payload);
      }
      if ok {
        ok := PublishPortal(job, payload);
      }
    }

    /** `_run_pipeline`. */
    method RunPipeline(job: Job) returns (ok: bool)
      modifies world
      ensures (ok, world.View()) == RunSteps(Pipeline(job), old(world.View()))
    {
      RunConcat(Front(job), [Effect(ReadyMail)], world.View());
      ok := Prepare(job);
      if ok {
        RunOne(Effect(ReadyMail), world.View());
        ok := world.Attempt(Some(ReadyMail));
      }
    }

    method MarkRunning(order: Order) returns (ok: bool)
      modifies world, order`status
      ensures order.status == Running
      ensures (ok, world.View()) == Try(Effect(Saved(order.Row())), old(world.View()))
    {
      order.status := Running;
      ok := world.Attempt(Some(Saved(order.Row())));
    }

    method MarkFailed(order: Order, at: int) returns (ok: bool)
      modifies world, order`status, order`completedAt
      ensures order.status == Failed && order.completedAt == Some(at)
      ensures (ok, world.View()) == Try(Effect(Saved(order.Row())), old(world.View()))
    {
      order.status := Failed;
      order.completedAt := Some(at);
      ok := world.Attempt(Some(Saved(order.Row())));
    }

    method MarkComplete(order: Order, at: int, job: Job, payload: Payload) returns (ok: bool)
      requires job.payload == Some(payload)
      modifies world, order
      ensures order.Row() == EndsOf(job, at, old(order.Row())).complete
      ensures (ok, world.View()) == Try(Effect(Saved(order.Row())), old(world.View()))
    {
      order.status := Complete;
      order.completedAt := Some(at);
      order.deploymentUuid := Some(job.orderId);
      order.artifacts := Rehomed(job);
      order.delivery := Some(DeliveryOf(job, payload));
      ok := world.Attempt(Some(Saved(order.Row())));
    }

    /** `execute`; false where it raises. */
    method Execute(job: Job, at: int, order: Order) returns (returned: bool)
      modifies world, order
      ensures Execution(returned, order.Row(), world.View()) == Executed(job, at, old(order.Row()), old(world.View()))
    {
      var ok := MarkRunning(order);
      if !ok {
        return false;
      }
      ghost var began := world.View();
      ok := RunPipeline(job);
      if !ok {
        ok := MarkFailed(order, at);
        if !ok || job.payload.None? {
          return false;
        }
        returned := world.Attempt(Some(FailureMail));
        return;
      }
      SucceedsOnlyWithPayload(job, began);
      returned := MarkComplete(order, at, job, job.payload.value);
    }
  }

  lemma SucceedsOnlyWithPayload(job: Job, log: Log)
    requires RunSteps(Pipeline(job), log).0
    ensures job.payload.Some?
  {
    SucceedsIff(Pipeline(job), log);
    StopsConcat(Front(job), [Effect(ReadyMail)]);
    StopsIff(job);
  }

  /** What is left to archive from the i-th file on. */
  lemma ArchiveNext(job: Job, names: seq<string>, i: nat, log: Log)
    requires |names| == |job.refs| && i < |names|
    ensures var step := ArchiveStep(job.orderId, job.refs[i], names[i]);
            var rest := ArchiveAll(job.orderId, job.refs[i + 1..], names[i + 1..]);
            RunSteps(ArchiveAll(job.orderId, job.refs[i..], names[i..]), log)
            == if Try(step, log).0 then RunSteps(rest, Try(step, log).1) else Try(step, log)
  {
    assert job.refs[i..][0] == job.refs[i] && names[i..][0] == names[i];
    assert job.refs[i..][1..] == job.refs[i + 1..] && names[i..][1..] == names[i + 1..];
    var step := ArchiveStep(job.orderId, job.refs[i], names[i]);
    RunTwo(step, ArchiveAll(job.orderId, job.refs[i + 1..], names[i + 1..]), log);
  }
}
