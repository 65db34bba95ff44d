/**
 Retrying the HTTPS page: an install uses the pending key up, so a failed probe leaves no certificate to
 retry with.
 */
module HttpsRetry {
  import opened Wrappers
  import opened WizardSteps
  import opened WizardState
  import opened WizardInvariant

  /** Some certificate could still be installed. */
  ghost predicate Installable(o: Openssl, b: Box) {
    && Https !in b.done && b.tls.pendingHost.Some? && b.tls.pendingKey.Some?
    && exists chain: string :: Matches(o, chain, b.tls.pendingKey.value)
  }

  /** Some apply of the page would change the box. */
  ghost predicate SomeApplyWorks(o: Openssl, b: Box) {
    exists chain: string, nameMatches: bool, probes: bool :: NextHttps(o, b, chain, nameMatches, probes) != b
  }

  lemma ApplyWorksIff(o: Openssl, b: Box)
    ensures SomeApplyWorks(o, b) <==> Installable(o, b)
  {
    if Installable(o, b) {
      var chain: string :| Matches(o, chain, b.tls.pendingKey.value);
      assert NextHttps(o, b, chain, true, false).tls.pendingKey.None?;
    }
  }

  /** A signing request that left a key to use. */
  predicate MakesKey(a: Action) {
    a.RequestSigning? && a.newKey.Some?
  }

  ghost predicate NoneMakesKey(actions: seq<Action>) {
    forall i :: 0 <= i < |actions| ==> !MakesKey(actions[i])
  }

  lemma SecretsLeaveTls(o: Openssl, b: Box, a: Action)
    requires SavesSecrets(a) || a.ApplyNeo4j?
    ensures Next(o, b, a).tls == b.tls
  {
  }

  /** Only a signing request makes a pending key. */
  lemma KeyComesFromRequest(o: Openssl, b: Box, a: Action)
    requires b.tls.pendingKey.None? && !MakesKey(a)
    ensures Next(o, b, a).tls.pendingKey.None?
  {
    if SavesSecrets(a) || a.ApplyNeo4j? {
      SecretsLeaveTls(o, b, a);
    }
  }

  lemma HttpsActions(o: Openssl, b: Box, a: Action)
    requires b.tls.pendingKey.None? && !MakesKey(a) && (a.RequestSigning? || a.ApplyHttps? || a.SkipHttps?)
    ensures Next(o, b, a).installed == b.installed
    ensures Https in Next(o, b, a).done <==> Https in b.done || a.SkipHttps?
  {
  }

  lemma StillNoKey(o: Openssl, b: Box, a: Action)
    requires b.tls.pendingKey.None? && Honest(o, a) && !MakesKey(a)
    ensures var t := Next(o, b, a);
            && t.tls.pendingKey.None? && t.installed == b.installed
            && (Https in t.done <==> Https in b.done || a.SkipHttps?)
  {
    KeyComesFromRequest(o, b, a);
    if a.RequestSigning? || a.ApplyHttps? || a.SkipHttps? {
      HttpsActions(o, b, a);
    } else {
      DoneOnlyGrows(o, b, a);
      InstallHistory(o, b, a);
      assert PageOf(a) != Https;
    }
  }

  /**
   Without a pending key no sequence of applies and retries installs a certificate, or completes the page,
   until a signing request makes a new key; only a skip ends it.
   */
  lemma {:induction false} StuckWithoutKey(o: Openssl, b: Box, actions: seq<Action>)
    requires b.tls.pendingKey.None? && AllHonest(o, actions) && NoneMakesKey(actions)
    ensures var t := Run(o, b, actions);
            && t.tls.pendingKey.None? && t.installed == b.installed
            && (Https in t.done <==> Https in b.done || SkipHttps in actions)
  {
    if actions != [] {
      var n := |actions| - 1;
      StuckWithoutKey(o, b, actions[..n]);
      StillNoKey(o, Run(o, b, actions[..n]), actions[n]);
      assert actions == actions[..n] + [actions[n]];
    }
  }

  lemma RunTwo(o: Openssl, b: Box, first: Action, second: Action)
    ensures Run(o, b, [first, second]) == Next(o, Next(o, b, first), second)
  {
    assert [first, second][..1] == [first] && [first][..0] == [];
    assert Run(o, b, [first]) == Next(o, b, first);
  }

  /**
   A certificate that matches its key is installed in both directories, the probes then fail: the page is
   not done, and no retry with any certificate completes it before a new key is made.
   */
  lemma StuckAfterFailedProbes(
      o: Openssl, env: Option<string>, rootOnly: bool, host: string, key: string, chain: string, retries: seq<Action>)
    requires Matches(o, chain, key) && AllHonest(o, retries) && NoneMakesKey(retries)
    ensures var install := [RequestSigning(host, Some(key), true), ApplyHttps(chain, true, false)];
            var b := Run(o, Fresh(env, rootOnly), install);
            && b.tls.serverCert == b.tls.derCert == Some(chain) && Https !in b.done
            && !SomeApplyWorks(o, b)
            && (Https in Run(o, b, retries).done <==> SkipHttps in retries)
  {
    var first, second := RequestSigning(host, Some(key), true), ApplyHttps(chain, true, false);
    RunTwo(o, Fresh(env, rootOnly), first, second);
    var b := Next(o, Next(o, Fresh(env, rootOnly), first), second);
    ApplyWorksIff(o, b);
    StuckWithoutKey(o, b, retries);
  }
}
