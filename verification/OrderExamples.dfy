/** Runs at concrete orders: what the exact conditions of Orchestrator and OrderBucket shut out does happen. */
module OrderExamples {
  import opened Wrappers
  import opened Text
  import opened UniquePath
  import opened Manifest
  import opened SiteIdentity
  import opened Orchestrator
  import opened OrderBucket

  /** A cloud order for the site "a", whose one file is a topology of this name. */
  function OneFileJob(name: string): Job {
    Job("7", Some(Payload("a", Standard)), [Ref(Dtm, "json", "edp/" + name)], {}, false, key => key, c => [c])
  }

  /** Every call returns. */
  function Quiet(): Log {
    Log(_ => Done, 0, [])
  }

  lemma OneFileNames(name: string)
    requires '/' !in name
    ensures NamesOf(OneFileJob(name).refs) == Some([name])
  {
    var refs := OneFileJob(name).refs;
    FileNameIs("edp", name);
    assert "edp" + "/" + name == "edp/" + name;
    assert FileNames(UrlsOf(refs)) == [name];
    DistinctPathsStay([name], {});
  }

  lemma OneFileCanSucceed(name: string)
    requires '/' !in name
    ensures CanSucceed(OneFileJob(name))
  {
    var job := OneFileJob(name);
    OneFileNames(name);
    assert job.refs[0].kind == Dtm;
    var lowered := Lower(job.others, "a");
    assert lowered == "a" by { assert Lower(job.others, "a"[1..]) == ""; }
    assert IsSlugChar(lowered[0]);
    SlugWhenAndHow(job.others, "a");
  }

  /** An order that can succeed completes when every call returns. */
  lemma QuietRunCompletes(job: Job, at: int, order: OrderRow)
    requires CanSucceed(job)
    ensures Executed(job, at, order, Quiet()).order.status.Complete?
  {
    JobIsReady(job, at, order, Quiet());
    DeliveredIff(job, Quiet());
    PlayOrder(Front(job), EndsOf(job, at, order), Quiet());
  }

  lemma ManifestIsReserved()
    ensures "manifest.json" in Reserved(Standard) && '/' !in "manifest.json" && "manifest.json" != "dtm.json"
  {
    assert |"manifest.json"| == 13 && |"dtm.json"| == 8;
  }

  /** A complete order whose one file, called manifest.json, is no longer under its key. */
  lemma OverwrittenExample(at: int, order: OrderRow)
    ensures var job := OneFileJob("manifest.json");
            var x := Executed(job, at, order, Quiet());
            && x.order.status.Complete? && ArchivedNames(job) == ["manifest.json"]
            && At(x.log.events, Key("7", "manifest.json")) != Some(Artifact(job.refs[0]))
  {
    var job := OneFileJob("manifest.json");
    ManifestIsReserved();
    OneFileNames("manifest.json");
    OneFileCanSucceed("manifest.json");
    QuietRunCompletes(job, at, order);
    ArchivedSurvivesIff(job, at, order, Quiet(), 0);
  }

  /** The same order: its template points at dtm.json, where no topology is. */
  lemma MissingDtmExample(at: int, order: OrderRow)
    ensures var job := OneFileJob("manifest.json");
            var x := Executed(job, at, order, Quiet());
            x.order.status.Complete? && HasDtm(job.refs) && !IsDtm(At(x.log.events, Key("7", "dtm.json")))
  {
    var job := OneFileJob("manifest.json");
    ManifestIsReserved();
    OneFileNames("manifest.json");
    OneFileCanSucceed("manifest.json");
    QuietRunCompletes(job, at, order);
    DtmKeyHoldsDtmIff(job, at, order, Quiet());
    assert job.refs[0].kind == Dtm;
  }

  /** Every call returns but the last save, which raises before it writes. */
  function LastSaveRaises(job: Job): Log {
    Log(n => if n == |Front(job)| + 2 then RaisedBefore else Done, 0, [])
  }

  /** The contact has the ready mail, the database says RUNNING for good. */
  lemma LeftRunningExample(at: int, order: OrderRow)
    ensures var job := OneFileJob("dtm.json");
            var x := Executed(job, at, order, LastSaveRaises(job));
            !x.returned && Rows(x.log.events) == [order.(status := Running)] && ReadyMail in Mails(x.log.events)
  {
    OneFileCanSucceed("dtm.json");
    AnyLeftRunning(OneFileJob("dtm.json"), at, order);
  }

  lemma AnyLeftRunning(job: Job, at: int, order: OrderRow)
    requires CanSucceed(job)
    ensures var x := Executed(job, at, order, LastSaveRaises(job));
            !x.returned && Rows(x.log.events) == [order.(status := Running)] && ReadyMail in Mails(x.log.events)
  {
    var log, ends := LastSaveRaises(job), EndsOf(job, at, order);
    StopsIff(job);
    assert Delivered(Front(job), log);
    RanIff(Front(job), ends, log);
    SucceedsIff(Front(job) + [Effect(ReadyMail)], Started(log, ends.running));
    PlayAfterStart(Front(job), ends, log);
    assert LastSave(Front(job), ends, log) == |Front(job)| + 2;
    LeftRunningIff(job, at, order, log);
    ReadyMailIff(job, at, order, log);
    JobIsReady(job, at, order, log);
    RanLeaves(Front(job), ends, log);
  }

  /** An order whose payload no longer validates: every call returns, the order fails, and nobody is told. */
  lemma SilentFailureExample(job: Job, at: int, order: OrderRow)
    requires job.payload.None?
    ensures var x := Executed(job, at, order, Quiet());
            && x.order.status.Failed? && !x.returned
            && FailureMail !in Mails(x.log.events) && ReadyMail !in Mails(x.log.events)
  {
    var log, ends := Quiet(), EndsOf(job, at, order);
    StopsIff(job);
    JobIsReady(job, at, order, log);
    PlayOrder(Front(job), ends, log);
    RanIff(Front(job), ends, log);
    PlayAfterStart(Front(job), ends, log);
    FailureMailIff(job, at, order, log);
    ReadyMailIff(job, at, order, log);
  }
}
