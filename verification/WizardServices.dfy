/**
 The page services as they run: each `apply` works on the tracker, secrets.env and the box's own files
 in place. Each method is proved to take exactly the transition WizardState gives for it.
 */
module WizardServices {
  import opened Wrappers
  import opened WizardSteps
  import opened SecretsEnv
  import opened Percent
  import opened WizardState
  import Credentials
  import AnalystProgress
  import PageStreams

  /** What a page answers: refused, failed with an exception, or the verdict of its checks. */
  datatype Answer = AlreadyDone | Raised | Checked(verified: bool)

  /** The two directories the certificate goes to. */
  datatype TlsDir = HmiDir | DerDir

  /** What a page's answer says about its marker. */
  predicate Told(before: Box, after: Box, page: Step, answer: Answer) {
    && (answer.AlreadyDone? <==> page in before.done)
    && (answer == Checked(true) <==> page !in before.done && page in after.done)
    && (answer.AlreadyDone? || answer.Raised? ==> after.done == before.done)
  }

  /** How many polls the loop makes. */
  function PolledCount(polls: seq<PageStreams.LogPoll>): (n: nat)
    ensures n <= |polls|
  {
    PageStreams.PolledUpToTheEnd(PageStreams.PollsOf(polls));
    |PageStreams.Polled(PageStreams.PollsOf(polls))|
  }

  /** Reading the stages from this log raises. */
  ghost predicate LogRaises(log: seq<AnalystProgress.Line>) {
    exists s: nat :: s < 4 && AnalystProgress.StageRaises(log, s)
  }

  lemma StatusFailsIff(log: seq<AnalystProgress.Line>)
    ensures AnalystProgress.StatusOf(log).None? <==> LogRaises(log)
  {
    forall s: nat | s < 4 ensures AnalystProgress.StageOf(log, s).None? <==> AnalystProgress.StageRaises(log, s) {
      AnalystProgress.StageRaisesIff(log, s);
    }
  }

  lemma VerdictNeedsReadableLogs(polls: seq<PageStreams.LogPoll>, verified: bool)
    ensures PageStreams.HasVerdict(PageStreams.StreamEvents(PageStreams.PollsOf(polls), verified))
            <==> forall k :: 0 <= k < PolledCount(polls) ==> !LogRaises(polls[k].log)
  {
    var read := PageStreams.PollsOf(polls);
    PageStreams.VerdictIff(read, verified);
    PageStreams.PolledUpToTheEnd(read);
    forall k | 0 <= k < PolledCount(polls)
      ensures PageStreams.Polled(read)[k].stages.Some? <==> !LogRaises(polls[k].log)
    {
      StatusFailsIff(polls[k].log);
      PageStreams.PollsAt(polls, k);
      assert PageStreams.Polled(read)[k] == PageStreams.PollOf(polls[k]);
    }
  }

  class Machine {
    const tracker: StepTracker
    const secrets: SecretsFile
    var neo4j: seq<Byte>
    var tls: Tls
    var keyOnlySsh: bool
    var credentials: Option<string>
    ghost var saved: map<Step, seq<Entry>>
    ghost var skipped: set<Step>
    ghost var installed: Option<(string, string)>

    constructor (env: Option<string>, rootOnly: bool)
      ensures fresh(tracker) && fresh(secrets) && View() == Fresh(env, rootOnly)
    {
      tracker := new StepTracker();
      secrets := new SecretsFile(env, rootOnly);
      neo4j := DEFAULT_PASSWORD;
      tls := Tls(None, None, None, None, None, None, Missing);
      keyOnlySsh := false;
      credentials := None;
      saved, skipped, installed := map[], {}, None;
    }

    ghost function View(): Box
      reads this, tracker, secrets
    {
      Box(tracker.done, secrets.text, secrets.rootOnly, neo4j, tls, keyOnlySsh, credentials, saved, skipped, installed)
    }

    // ---------- pages that save secrets ----------

    method Save(page: Step, entries: seq<Entry>)
      modifies this`saved, secrets
      ensures View() == SavePage(old(View()), page, entries)
    {
      secrets.SaveSecrets(entries);
      saved := saved[page := entries];
    }

    /** `saved_check`. */
    method SavedCheckOf(names: seq<string>) returns (ok: bool)
      ensures ok == SavedCheck(secrets.text, secrets.rootOnly, names)
    {
      ok := secrets.text.Some? && secrets.rootOnly;
      for i := 0 to |names|
        invariant ok == (secrets.text.Some? && secrets.rootOnly
                         && forall k :: 0 <= k < i ==> Read(secrets.text, names[k]).Some?)
      {
        var value := secrets.ReadSecret(names[i]);
        ok := ok && value.Some?;
      }
    }

    method MarkWhen(page: Step, verified: bool)
      modifies tracker
      ensures View() == Finish(old(View()), page, verified)
    {
      if verified {
        tracker.MarkDone(page);
      }
    }

    /** Refuse when done, save, start, verify, mark. */
    method ApplySecrets(page: Step, entries: seq<Entry>, checked: seq<string>, probes: bool) returns (answer: Answer)
      modifies this`saved, tracker, secrets
      ensures View() == ApplySecretPage(old(View()), page, entries, checked, probes)
      ensures Told(old(View()), View(), page, answer)
    {
      if page in tracker.done {
        return AlreadyDone;
      }
      Save(page, entries);
      var present := SavedCheckOf(checked);
      MarkWhen(page, probes && present);
      answer := Checked(probes && present);
    }

    method Hivemq(
        o: Openssl, template: string, service: string, operator: string, viewer: string, probes: bool)
      returns (answer: Answer)
      modifies this`credentials, this`saved, tracker, secrets
      ensures View() == Next(o, old(View()), ApplyHivemq(template, service, operator, viewer, probes))
      ensures Told(old(View()), View(), Step.Hivemq, answer)
    {
      if Step.Hivemq in tracker.done {
        return AlreadyDone;
      }
      var file := Credentials.RenderCredentials(template, Credentials.OnPrem(service, operator, viewer));
      credentials := Some(file);
      var entries := PageEntries(Step.Hivemq, HivemqValues(service, operator, viewer));
      answer := ApplySecrets(Step.Hivemq, entries, CheckedNames(Step.Hivemq), probes);
    }

    method Postgres(o: Openssl, password: seq<Byte>, gateway: Option<string>, probes: bool) returns (answer: Answer)
      modifies this`saved, tracker, secrets
      ensures View() == Next(o, old(View()), ApplyPostgres(password, gateway, probes))
      ensures Told(old(View()), View(), Step.Postgres, answer)
    {
      if Step.Postgres in tracker.done {
        return AlreadyDone;
      }
      if gateway.None? {
        return Checked(false);
      }
      var entries := PageEntries(Step.Postgres, PostgresValues(password, gateway.value));
      answer := ApplySecrets(Step.Postgres, entries, CheckedNames(Step.Postgres), probes);
    }

    method DeviceApi(o: Openssl, jwtSecret: string, probes: bool) returns (answer: Answer)
      modifies this`saved, tracker, secrets
      ensures View() == Next(o, old(View()), ApplyDeviceApi(jwtSecret, probes))
      ensures Told(old(View()), View(), Step.DeviceApi, answer)
    {
      var entries := PageEntries(Step.DeviceApi, [jwtSecret]);
      answer := ApplySecrets(Step.DeviceApi, entries, CheckedNames(Step.DeviceApi), probes);
    }

    method Grafana(o: Openssl, password: string, probes: bool) returns (answer: Answer)
      modifies this`saved, tracker, secrets
      ensures View() == Next(o, old(View()), ApplyGrafana(password, probes))
      ensures Told(old(View()), View(), Step.Grafana, answer)
    {
      var entries := PageEntries(Step.Grafana, [password]);
      answer := ApplySecrets(Step.Grafana, entries, CheckedNames(Step.Grafana), probes);
    }

    method AnalystServer(o: Openssl, weatherKey: string, gridKey: string, probes: bool) returns (answer: Answer)
      modifies this`saved, tracker, secrets
      ensures View() == Next(o, old(View()), ApplyAnalystServer(weatherKey, gridKey, probes))
      ensures Told(old(View()), View(), Step.AnalystServer, answer)
    {
      var entries := PageEntries(Step.AnalystServer, [weatherKey, gridKey]);
      answer := ApplySecrets(Step.AnalystServer, entries, CheckedNames(Step.AnalystServer), probes);
    }

    /**
     `start_stream`, the same page over a stream: None when it refuses, else a stage update per poll and one
     verdict, which says whether the page is now done. It has no verdict exactly when some polled log makes
     a stage raise: the keys are saved by then, and the page is not marked.
     */
    method StartStream(o: Openssl, weatherKey: string, gridKey: string, polls: seq<PageStreams.LogPoll>, probes: bool)
      returns (events: Option<seq<PageStreams.AnalystEvent<PageStreams.Status>>>)
      requires PageStreams.SomeEnds(PageStreams.PollsOf(polls))
      modifies this`saved, tracker, secrets
      ensures View()
           == Next(o, old(View()),
                   ApplyAnalystServer(weatherKey, gridKey, probes && !PageStreams.Raises(PageStreams.PollsOf(polls))))
      ensures events == if Step.AnalystServer in old(tracker.done) then None
                        else Some(PageStreams.StreamEvents(PageStreams.PollsOf(polls),
                                                           Step.AnalystServer in tracker.done))
      ensures events.Some? ==>
        (PageStreams.HasVerdict(events.value) <==> forall k :: 0 <= k < PolledCount(polls) ==> !LogRaises(polls[k].log))
    {
      if Step.AnalystServer in tracker.done {
        return None;
      }
      Save(Step.AnalystServer, PageEntries(Step.AnalystServer, [weatherKey, gridKey]));
      var updates, raised := PageStreams.PollStages(polls);
      VerdictNeedsReadableLogs(polls, probes);
      if raised {
        assert updates + [] == updates;
        return Some(updates);
      }
      var present := SavedCheckOf(CheckedNames(Step.AnalystServer));
      VerdictNeedsReadableLogs(polls, probes && present);
      MarkWhen(Step.AnalystServer, probes && present);
      events := Some(updates + [PageStreams.Verdict(probes && present)]);
    }

    // ---------- Neo4j ----------

    /** The candidates in the order they are tried; the saved one only when it differs. */
    method OldPasswords() returns (olds: seq<seq<Byte>>)
      ensures olds == Candidates(secrets.text)
    {
      olds := [DEFAULT_PASSWORD];
      var url := secrets.ReadSecret("GRAPH_URL");
      if url.Some? {
        var quoted := UrlPassword(url.value);
        if quoted.Some? && quoted.value != "" {
          var saved := Unquote(quoted.value);
          if saved.Some? && saved.value !in olds {
            olds := olds + [saved.value];
          }
        }
      }
    }

    /** Try each old password until one ALTER exits 0. */
    method SetPassword(password: seq<Byte>, willing: seq<bool>) returns (changed: bool)
      modifies this`neo4j
      ensures changed == Altered(old(neo4j), Candidates(secrets.text), willing)
      ensures changed <==> exists i :: 0 <= i < |Candidates(secrets.text)| && i < |willing|
                                       && Candidates(secrets.text)[i] == old(neo4j) && willing[i]
      ensures neo4j == if changed then password else old(neo4j)
    {
      var olds := OldPasswords();
      AlteredIff(neo4j, olds, willing);
      var left := willing;
      assert olds[0..] == olds;
      for i := 0 to |olds|
        invariant neo4j == old(neo4j)
        invariant Altered(neo4j, olds, willing) == Altered(neo4j, olds[i..], left)
      {
        assert olds[i..][1..] == olds[i + 1..];
        if neo4j == olds[i] && left != [] && left[0] {
          neo4j := password;
          return true;
        }
        left := if left == [] then [] else left[1..];
      }
      changed := false;
    }

    method Neo4j(
        password: seq<Byte>, gateway: Option<string>, boltOpens: bool, willing: seq<bool>, probes: bool)
      returns (answer: Answer)
      modifies this`neo4j, this`saved, tracker, secrets
      ensures View() == NextNeo4j(old(View()), password, gateway, boltOpens, willing, probes)
      ensures Told(old(View()), View(), Step.Neo4j, answer)
    {
      if Step.Neo4j in tracker.done {
        return AlreadyDone;
      }
      if gateway.None? {
        return Checked(false);
      }
      if boltOpens {
        var changed := SetPassword(password, willing);
        if changed {
          Save(Step.Neo4j, GraphEntries(password, gateway.value));
        }
      }
      var present := SavedCheckOf(["GRAPH_URL"]);
      MarkWhen(Step.Neo4j, probes && neo4j == password && present);
      answer := Checked(probes && neo4j == password && present);
    }

    // ---------- certificates ----------

    method RequestCertificate(host: string, newKey: Option<string>, signed: bool)
      modifies this`tls
      ensures View() == NextRequest(old(View()), host, newKey, signed)
    {
      if newKey.Some? {
        tls := tls.(pendingKey := newKey);
      }
      if signed {
        tls := tls.(pendingHost := Some(host));
      }
    }

    /** The chain and the key into each directory in turn, then the pending key goes. */
    method InstallEverywhere(chain: string, key: string)
      modifies this`tls
      ensures tls == Install(old(tls), chain, key)
    {
      var dirs := [HmiDir, DerDir];
      for i := 0 to 2
        invariant i == 0 ==> tls == old(tls)
        invariant i == 1 ==> tls == old(tls).(serverCert := Some(chain), serverKey := Some(key))
        invariant i == 2 ==> tls == Install(old(tls), chain, key).(pendingKey := old(tls).pendingKey)
      {
        match dirs[i] {
          case HmiDir => tls := tls.(serverCert := Some(chain), serverKey := Some(key));
          case DerDir => tls := tls.(derCert := Some(chain), derKey := Some(key));
        }
      }
      tls := tls.(pendingKey := None);
    }

    method Https(o: Openssl, chain: string, nameMatches: bool, probes: bool) returns (answer: Answer)
      modifies this`tls, this`installed, tracker
      ensures View() == NextHttps(o, old(View()), chain, nameMatches, probes)
      ensures Told(old(View()), View(), Step.Https, answer)
    {
      if Step.Https in tracker.done {
        return AlreadyDone;
      }
      if tls.pendingHost.None? || tls.pendingKey.None? {
        return Raised;
      }
      var key := tls.pendingKey.value;
      var certKey := o.certPub(FirstCertificate(chain));
      var boxKey := o.keyPub(key);
      if certKey.None? || boxKey.None? {
        return Raised;
      }
      if certKey != boxKey || !nameMatches {
        return Checked(false);
      }
      InstallEverywhere(chain, key);
      installed := Some((chain, key));
      MarkWhen(Step.Https, probes);
      answer := Checked(probes);
    }

    /** A certificate only when there is none; the truststore every time. */
    method StartDerIngress(made: SelfSigned, utilityCa: string)
      modifies this`tls
      ensures View() == old(View()).(tls := StartIngress(old(tls), made, utilityCa))
    {
      if tls.derCert.None? {
        if made.key.Some? {
          tls := tls.(derKey := made.key);
        }
        tls := tls.(derCert := made.cert);
      }
      tls := tls.(derTruststore := if utilityCa != "" then Trusts(utilityCa) else TrustsNobody);
    }

    method DerControl(allowlist: string, utilityCa: string, made: SelfSigned, probes: bool) returns (answer: Answer)
      modifies this`tls, this`saved, tracker, secrets
      ensures View() == NextDerControl(old(View()), allowlist, utilityCa, made, probes)
      ensures Told(old(View()), View(), DerControlApi, answer)
    {
      if DerControlApi in tracker.done {
        return AlreadyDone;
      }
      Save(DerControlApi, [Entry("DER_CONTROL_LFDI_ALLOWLIST", allowlist)]);
      StartDerIngress(made, utilityCa);
      MarkWhen(DerControlApi, probes);
      answer := Checked(probes);
    }

    method SkipPage(page: Step)
      modifies this`skipped, tracker
      ensures View() == Skip(old(View()), page)
    {
      tracker.MarkDone(page);
      skipped := skipped + {page};
    }

    // ---------- sshd ----------

    method Lockdown(disablePasswords: bool, passwordsOff: bool) returns (answer: Answer)
      modifies this`keyOnlySsh, tracker
      ensures View() == NextLockdown(old(View()), disablePasswords, passwordsOff)
      ensures Told(old(View()), View(), SshLockdown, answer)
    {
      if SshLockdown in tracker.done {
        return AlreadyDone;
      }
      if Ssh !in tracker.done {
        return Raised;
      }
      var off := true;
      if disablePasswords {
        keyOnlySsh := true;
        off := passwordsOff;
      }
      MarkWhen(SshLockdown, off);
      answer := Checked(off);
    }
  }
}
