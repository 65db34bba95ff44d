/** What a complete order leaves in the bucket: later uploads may overwrite what was archived. */
module OrderBucket {
  import opened Wrappers
  import opened UniquePath
  import opened Manifest
  import opened Orchestrator

  /** The object a run's uploads leave under a key: the last one put there. */
  function At(events: seq<Event>, key: string): Option<Content> {
    if events == [] then None else
      var e := events[|events| - 1];
      if e.Put? && e.key == key then Some(e.content) else At(events[..|events| - 1], key)
  }

  predicate PutsAt(e: Event, key: string) {
    e.Put? && e.key == key
  }

  lemma {:induction false} AtIs(events: seq<Event>, key: string, i: nat)
    requires i < |events| && PutsAt(events[i], key)
    requires forall j :: i < j < |events| ==> !PutsAt(events[j], key)
    ensures At(events, key) == Some(events[i].content)
  {
    if i < |events| - 1 {
      AtIs(events[..|events| - 1], key, i);
    }
  }

  lemma {:induction false} AtNowhere(events: seq<Event>, key: string)
    requires forall j :: 0 <= j < |events| ==> !PutsAt(events[j], key)
    ensures At(events, key) == None
  {
    if events != [] {
      AtNowhere(events[..|events| - 1], key);
    }
  }

  lemma {:induction false} AtConcat(a: seq<Event>, b: seq<Event>, key: string)
    ensures At(a + b, key) == if At(b, key).Some? then At(b, key) else At(a, key)
  {
    if b == [] {
      assert a + b == a;
    } else {
      assert (a + b)[..|a| + |b| - 1] == a + b[..|b| - 1];
      AtConcat(a, b[..|b| - 1], key);
    }
  }

  /** The names the delivery itself uses. */
  function Reserved(partition: Partition): set<string> {
    {"arcnode.zip", "manifest.json", "index.html"}
    + if partition.NoAws? then {"arcnode-ems.iso"} else {"ems-stack.yaml"}
  }

  function DeliveryEvents(job: Job): seq<Event>
    requires job.payload.Some?
  {
    [DeliveryPut(job, job.payload.value)] + PortalEvents(job.orderId)
  }

  lemma DeliveryAt(job: Job, name: string)
    requires job.payload.Some?
    ensures var found := At(DeliveryEvents(job), Key(job.orderId, name));
            && (found.Some? <==> name in Reserved(job.payload.value.partition))
            && (found.Some? ==> !found.value.Artifact?)
  {
    var events, key := DeliveryEvents(job), Key(job.orderId, name);
    if name in Reserved(job.payload.value.partition) {
      var j := ReservedPut(job, name);
      LastAt(events, key, j);
    } else {
      forall j | 0 <= j < |events| ensures !PutsAt(events[j], key) {
        if PutsAt(events[j], key) {
          ReservedNames(job, name, j);
        }
      }
      AtNowhere(events, key);
    }
  }

  lemma {:induction false} LastAt(events: seq<Event>, key: string, j: nat)
    requires j < |events| && PutsAt(events[j], key)
    requires forall i :: 0 <= i < |events| && events[i].Put? ==> !events[i].content.Artifact?
    ensures At(events, key).Some? && !At(events, key).value.Artifact?
  {
    if !PutsAt(events[|events| - 1], key) {
      LastAt(events[..|events| - 1], key, j);
    }
  }

  lemma ReservedNames(job: Job, name: string, j: nat)
    requires job.payload.Some? && j < 4 && PutsAt(DeliveryEvents(job)[j], Key(job.orderId, name))
    ensures name in Reserved(job.payload.value.partition)
  {
    if j == 0 {
      var own := if job.payload.value.partition.NoAws? then "arcnode-ems.iso" else "ems-stack.yaml";
      KeyInjective(job.orderId, own, name);
    } else {
      KeyInjective(job.orderId, ["arcnode.zip", "manifest.json", "index.html"][j - 1], name);
    }
  }

  lemma ReservedPut(job: Job, name: string) returns (j: nat)
    requires job.payload.Some? && name in Reserved(job.payload.value.partition)
    ensures j < 4 && PutsAt(DeliveryEvents(job)[j], Key(job.orderId, name))
  {
    j := if name == "arcnode.zip" then 1 else if name == "manifest.json" then 2
        else if name == "index.html" then 3 else 0;
  }

  lemma ArchivedAt(job: Job, i: nat)
    requires NamesOf(job.refs).Some? && i < |job.refs|
    ensures At(ArchivePuts(job.orderId, job.refs, ArchivedNames(job)), Key(job.orderId, ArchivedNames(job)[i]))
         == Some(Artifact(job.refs[i]))
  {
    var names := ArchivedNames(job);
    NamesFit(job.refs);
    forall j | i < j < |job.refs| ensures Key(job.orderId, names[j]) != Key(job.orderId, names[i]) {
      if Key(job.orderId, names[j]) == Key(job.orderId, names[i]) {
        KeyInjective(job.orderId, names[j], names[i]);
      }
    }
    AtIs(ArchivePuts(job.orderId, job.refs, names), Key(job.orderId, names[i]), i);
  }

  lemma SavesPutNothing(a: seq<Event>, e: Event, key: string)
    requires !e.Put?
    ensures At(a + [e], key) == At(a, key)
  {
    assert (a + [e])[..|a|] == a;
  }

  /** Only the archived files and the delivery's own uploads decide what a key holds. */
  lemma CompleteAt(job: Job, running: OrderRow, saved: bool, row: OrderRow, key: string)
    requires job.payload.Some?
    ensures At(CompletePlan(job, running) + Once(saved, Saved(row)), key)
         == At(ArchivePuts(job.orderId, job.refs, ArchivedNames(job)) + DeliveryEvents(job), key)
  {
    var puts := ArchivePuts(job.orderId, job.refs, ArchivedNames(job));
    var body := puts + [DeliveryPut(job, job.payload.value)] + PortalEvents(job.orderId);
    assert body == puts + DeliveryEvents(job);
    var plan := [Saved(running)] + body + [ReadyMail];
    if saved {
      SavesPutNothing(plan, Saved(row), key);
    } else {
      assert plan + [] == plan;
    }
    SavesPutNothing([Saved(running)] + body, ReadyMail, key);
    AtConcat([Saved(running)], body, key);
    AtNowhere([Saved(running)], key);
  }

  lemma CompleteHasNames(job: Job, at: int, order: OrderRow, log: Log)
    requires log.events == [] && Executed(job, at, order, log).order.status.Complete?
    ensures NamesOf(job.refs).Some?
  {
    JobIsReady(job, at, order, log);
    PlayOrder(Front(job), EndsOf(job, at, order), log);
    DeliveredIff(job, log);
  }

  /** A name that is not the delivery's own holds what the archive put there. */
  lemma UnreservedAt(job: Job, at: int, order: OrderRow, log: Log, name: string)
    requires log.events == [] && Executed(job, at, order, log).order.status.Complete?
    ensures job.payload.Some? && NamesOf(job.refs).Some?
    ensures name !in Reserved(job.payload.value.partition) ==>
      At(Executed(job, at, order, log).log.events, Key(job.orderId, name))
      == At(ArchivePuts(job.orderId, job.refs, ArchivedNames(job)), Key(job.orderId, name))
    ensures var found := At(Executed(job, at, order, log).log.events, Key(job.orderId, name));
      name in Reserved(job.payload.value.partition) ==> found.Some? && !found.value.Artifact?
  {
    CompleteIsDelivered(job, at, order, log);
    CompleteHasNames(job, at, order, log);
    var x := Executed(job, at, order, log);
    var saved := TookEffect(log.faults, LastSave(Front(job), EndsOf(job, at, order), log));
    CompleteAt(job, order.(status := Running), saved, x.order, Key(job.orderId, name));
    AtConcat(ArchivePuts(job.orderId, job.refs, ArchivedNames(job)), DeliveryEvents(job), Key(job.orderId, name));
    DeliveryAt(job, name);
  }

  /**
   After a complete order each archived file is still the object under its key, exactly when its name
   is none of the delivery's own: a file called manifest.json is overwritten.
   */
  lemma ArchivedSurvivesIff(job: Job, at: int, order: OrderRow, log: Log, i: nat)
    requires log.events == [] && Executed(job, at, order, log).order.status.Complete? && i < |job.refs|
    ensures job.payload.Some?
    ensures var found := At(Executed(job, at, order, log).log.events, Key(job.orderId, ArchivedNames(job)[i]));
            found == Some(Artifact(job.refs[i])) <==> ArchivedNames(job)[i] !in Reserved(job.payload.value.partition)
  {
    UnreservedAt(job, at, order, log, ArchivedNames(job)[i]);
    ArchivedAt(job, i);
  }

  /** The topology every template and ISO refers to was archived under its fixed name. */
  predicate DtmNamed(job: Job) {
    exists i :: 0 <= i < |job.refs| && ArchivedNames(job)[i] == "dtm.json" && job.refs[i].kind == Dtm
  }

  lemma DtmIsUnreserved(partition: Partition)
    ensures "dtm.json" !in Reserved(partition)
  {
    assert |"dtm.json"| == 8 && |"arcnode.zip"| == 11 && |"manifest.json"| == 13 && |"index.html"| == 10;
    assert |"arcnode-ems.iso"| == 15 && |"ems-stack.yaml"| == 14;
  }

  predicate IsDtm(found: Option<Content>) {
    found.Some? && found.value.Artifact? && found.value.ref.kind == Dtm
  }

  lemma DtmPut(job: Job)
    requires NamesOf(job.refs).Some?
    ensures IsDtm(At(ArchivePuts(job.orderId, job.refs, ArchivedNames(job)), Key(job.orderId, "dtm.json")))
            <==> DtmNamed(job)
  {
    var names, key := ArchivedNames(job), Key(job.orderId, "dtm.json");
    var puts := ArchivePuts(job.orderId, job.refs, names);
    if i :| 0 <= i < |names| && names[i] == "dtm.json" {
      ArchivedAt(job, i);
      NamesFit(job.refs);
    } else {
      forall j | 0 <= j < |puts| ensures !PutsAt(puts[j], key) {
        if PutsAt(puts[j], key) {
          KeyInjective(job.orderId, names[j], "dtm.json");
        }
      }
      AtNowhere(puts, key);
    }
  }

  /**
   The template and the ISO use orders/<id>/dtm.json without looking at the archived name: after a
   complete order the run has put a DTM there exactly when a DTM's file name came out as dtm.json.
   */
  lemma DtmKeyHoldsDtmIff(job: Job, at: int, order: OrderRow, log: Log)
    requires log.events == [] && Executed(job, at, order, log).order.status.Complete?
    ensures IsDtm(At(Executed(job, at, order, log).log.events, Key(job.orderId, "dtm.json"))) <==> DtmNamed(job)
  {
    var events := Executed(job, at, order, log).log.events;
    var puts := ArchivePuts(job.orderId, job.refs, ArchivedNames(job));
    assert At(events, Key(job.orderId, "dtm.json")) == At(puts, Key(job.orderId, "dtm.json")) by {
      UnreservedAt(job, at, order, log, "dtm.json");
      DtmIsUnreserved(job.payload.value.partition);
    }
    assert NamesOf(job.refs).Some? by {
      CompleteHasNames(job, at, order, log);
    }
    DtmPut(job);
  }
}
