/**
 The HiveMQ page end to end: in every reachable state the broker's file and secrets.env give each account
 the same password.
 */
module BrokerLogins {
  import opened Wrappers
  import opened Text
  import opened WizardSteps
  import opened SecretsEnv
  import opened WizardState
  import opened WizardInvariant
  import opened Credentials
  import PlaceholderPasswords

  lemma PeopleAndGatewayNames()
    ensures "MQTT_GATEWAY_PASSWORD" == "MQTT_" + "GATEWAY_PASSWORD"
    ensures "MQTT_OPERATOR_PASSWORD" == "MQTT_" + "OPERATOR_PASSWORD"
    ensures "MQTT_VIEWER_PASSWORD" == "MQTT_" + "VIEWER_PASSWORD"
  {
  }

  lemma ApiNames()
    ensures "MQTT_DEVICE_API_PASSWORD" == "MQTT_" + "DEVICE_API_PASSWORD"
    ensures "MQTT_DER_CONTROL_API_PASSWORD" == "MQTT_" + "DER_CONTROL_API_PASSWORD"
  {
  }

  lemma WriterName()
    ensures "MQTT_TELEMETRY_WRITER_PASSWORD" == "MQTT_" + "TELEMETRY_WRITER_PASSWORD"
  {
  }

  /** The i-th account of the broker's file has the i-th name of secrets.env, without its "MQTT_". */
  lemma AccountNamesFit(service: string, operator: string, viewer: string, i: nat)
    requires i < 6
    ensures PageNames(Hivemq)[i] == "MQTT_" + OnPrem(service, operator, viewer)[i].name
    ensures HivemqValues(service, operator, viewer)[i] == OnPrem(service, operator, viewer)[i].password
  {
    PeopleAndGatewayNames();
    ApiNames();
    WriterName();
  }

  lemma SavedValueReads(env: Option<string>, page: Step, values: seq<string>, i: nat)
    requires page in SECRET_PAGES && |values| == |PageNames(page)| && i < |values|
    requires forall k :: 0 <= k < |values| ==> BreakFree(values[k])
    ensures Read(Some(Saved(env, PageEntries(page, values))), PageNames(page)[i]) == Some(values[i])
  {
    var entries := PageEntries(page, values);
    PageEntriesNamed(page, values);
    PageEntriesAreWellFormed(page, entries);
    ReadsBackIffBreakFree(env, entries);
    assert Read(Some(Saved(env, entries)), entries[i].name) == Some(entries[i].value);
  }

  /**
   After the page has written its files, the password a container reads from secrets.env under an
   account's name is the one the broker reads for that account from its own file, whatever the file and
   the template held; the passwords must hold no line break, and this one no later account's placeholder.
   */
  lemma BrokerAcceptsSavedPasswords(
      env: Option<string>, service: string, operator: string, viewer: string, i: nat, rest: string)
    requires i < 6 && BreakFree(service) && BreakFree(operator) && BreakFree(viewer)
    requires StaysPut(OnPrem(service, operator, viewer), OnPrem(service, operator, viewer)[i].name)
    requires rest != "" && rest[0] == '<'
    ensures var accounts := OnPrem(service, operator, viewer);
            var entries := PageEntries(Hivemq, HivemqValues(service, operator, viewer));
            var hole := Sequential(Placeholder(accounts[i].name), accounts);
            var saved := Read(Some(Saved(env, entries)), "MQTT_" + accounts[i].name);
            saved.Some? && ReadText(hole + rest) == Some((saved.value, rest))
  {
    var accounts := OnPrem(service, operator, viewer);
    AccountsAreProper(service, operator, viewer);
    AccountNamesFit(service, operator, viewer, i);
    SavedValueReads(env, Hivemq, HivemqValues(service, operator, viewer), i);
    HoleIsSimultaneous(accounts, accounts[i].name);
    PasswordReadsBack(accounts, i, rest);
  }

  // ---------- every reachable state ----------

  /** The accounts of the page's last save. */
  function LastAccounts(b: Box): seq<Account>
    requires Hivemq in b.saved && |b.saved[Hivemq]| == 8
  {
    OnPrem(b.saved[Hivemq][0].value, b.saved[Hivemq][1].value, b.saved[Hivemq][2].value)
  }

  /** The broker's file was filled with the very passwords the page last saved. */
  ghost predicate FilledAsSaved(b: Box, template: string) {
    Hivemq in b.saved ==>
      && IsPageEntries(Hivemq, b.saved[Hivemq])
      && b.credentials == Some(Sequential(template, LastAccounts(b)))
  }

  /** Every apply of the page reads the same template file. */
  ghost predicate FromTemplate(actions: seq<Action>, template: string) {
    forall i :: 0 <= i < |actions| && actions[i].ApplyHivemq? ==> actions[i].template == template
  }

  lemma HivemqFills(o: Openssl, b: Box, a: Action)
    requires a.ApplyHivemq? && FilledAsSaved(b, a.template)
    ensures FilledAsSaved(Next(o, b, a), a.template)
  {
    var values := HivemqValues(a.service, a.operator, a.viewer);
    PageEntriesNamed(Hivemq, values);
    var written := WriteCredentials(b, a.template, a.service, a.operator, a.viewer);
    SecretPageCases(written, Hivemq, PageEntries(Hivemq, values), CheckedNames(Hivemq), a.probes);
  }

  /** No other page touches the broker's file. */
  lemma OthersLeaveCredentials(o: Openssl, b: Box, a: Action)
    requires !a.ApplyHivemq?
    ensures Next(o, b, a).credentials == b.credentials
  {
  }

  lemma NextFills(o: Openssl, b: Box, a: Action, template: string)
    requires FilledAsSaved(b, template) && Honest(o, a) && (a.ApplyHivemq? ==> a.template == template)
    ensures FilledAsSaved(Next(o, b, a), template)
  {
    if a.ApplyHivemq? {
      HivemqFills(o, b, a);
    } else {
      OthersLeaveCredentials(o, b, a);
      DoneOnlyGrows(o, b, a);
      assert PageOf(a) != Hivemq;
    }
  }

  lemma {:induction false} RunFills(
      o: Openssl, env: Option<string>, rootOnly: bool, actions: seq<Action>, template: string)
    requires AllHonest(o, actions) && FromTemplate(actions, template)
    ensures FilledAsSaved(Run(o, Fresh(env, rootOnly), actions), template)
  {
    if actions != [] {
      var n := |actions| - 1;
      RunFills(o, env, rootOnly, actions[..n], template);
      NextFills(o, Run(o, Fresh(env, rootOnly), actions[..n]), actions[n], template);
    }
  }

  /**
   In every reachable state, once the page has saved anything: the broker's file is the template filled at
   once with the accounts of the last save, and the password a container reads from secrets.env under an
   account's name is the one the broker reads in that account's hole. Other pages, retries and failures
   change neither file's answer; the passwords must hold no line break and no later account's placeholder.
   */
  lemma BrokerLoginsAgree(
      o: Openssl, env: Option<string>, rootOnly: bool, actions: seq<Action>, t: Template, i: nat, rest: string)
    requires AllHonest(o, actions) && FromTemplate(actions, Source(t)) && PlainHoles(t)
    requires var b := Run(o, Fresh(env, rootOnly), actions);
             && Hivemq in b.saved && |b.saved[Hivemq]| == 8 && ValuesBreakFree(b.saved[Hivemq])
             && GoodTemplate(t, LastAccounts(b)) && NoLaterPlaceholders(t, LastAccounts(b))
    requires i < 6 && rest != "" && rest[0] == '<'
    ensures var b := Run(o, Fresh(env, rootOnly), actions);
            var accounts := LastAccounts(b);
            var read := Read(b.env, "MQTT_" + accounts[i].name);
            && b.credentials == Some(Fill(t, AtOnce(accounts)))
            && read.Some? && ReadText(AtOnce(accounts)(accounts[i].name) + rest) == Some((read.value, rest))
  {
    var b := Run(o, Fresh(env, rootOnly), actions);
    RunFills(o, env, rootOnly, actions, Source(t));
    RunKeepsInv(o, env, rootOnly, actions);
    FilesAgree(o, b, t, i, rest);
  }

  lemma FilesAgree(o: Openssl, b: Box, t: Template, i: nat, rest: string)
    requires Inv(o, b) && FilledAsSaved(b, Source(t)) && PlainHoles(t)
    requires Hivemq in b.saved && |b.saved[Hivemq]| == 8 && ValuesBreakFree(b.saved[Hivemq])
    requires GoodTemplate(t, LastAccounts(b)) && NoLaterPlaceholders(t, LastAccounts(b))
    requires i < 6 && rest != "" && rest[0] == '<'
    ensures var accounts := LastAccounts(b);
            var read := Read(b.env, "MQTT_" + accounts[i].name);
            && b.credentials == Some(Fill(t, AtOnce(accounts)))
            && read.Some? && ReadText(AtOnce(accounts)(accounts[i].name) + rest) == Some((read.value, rest))
  {
    var entries, accounts := b.saved[Hivemq], LastAccounts(b);
    AccountsAreProper(entries[0].value, entries[1].value, entries[2].value);
    SequentialIsSimultaneous(t, accounts);
    PasswordReadsBack(accounts, i, rest);
    LastAccountReads(o, b, i);
  }

  /** An account's name in secrets.env reads the password the broker's file was filled with. */
  lemma LastAccountReads(o: Openssl, b: Box, i: nat)
    requires Inv(o, b) && i < 6 && Hivemq in b.saved && |b.saved[Hivemq]| == 8 && ValuesBreakFree(b.saved[Hivemq])
    ensures Read(b.env, "MQTT_" + LastAccounts(b)[i].name) == Some(LastAccounts(b)[i].password)
  {
    var entries := b.saved[Hivemq];
    LastSaveReads(b, i);
    RolesGiveAccounts(entries, i);
    AccountNamesFit(entries[0].value, entries[1].value, entries[2].value, i);
  }

  lemma LastSaveReads(b: Box, i: nat)
    requires SavedInv(b) && i < 8 && Hivemq in b.saved && |b.saved[Hivemq]| == 8 && ValuesBreakFree(b.saved[Hivemq])
    ensures Read(b.env, PageNames(Hivemq)[i]) == Some(b.saved[Hivemq][i].value)
  {
    var entries := b.saved[Hivemq];
    assert PageSaved(b.env, Hivemq, entries);
    assert entries[i].name == PageNames(Hivemq)[i];
  }

  lemma RolesGiveAccounts(entries: seq<Entry>, i: nat)
    requires RolesAgree(entries) && i < 6
    ensures HivemqValues(entries[0].value, entries[1].value, entries[2].value)[i] == entries[i].value
  {
  }

  lemma LongerIsAccepted(s: string, more: string)
    requires PlaceholderPasswords.Accepted(s)
    ensures PlaceholderPasswords.Accepted(s + more)
  {
    assert forall i :: 0 <= i < |s| ==> (s + more)[i] == s[i];
  }

  lemma ShortIsBreakFree()
    ensures BreakFree(PlaceholderPasswords.SHORT) && BreakFree("x") && "x" != PlaceholderPasswords.SHORT
  {
    assert |"x"| == 1 && |PlaceholderPasswords.SHORT| == 8;
  }

  /**
   A service password the policy accepts, after which the page is done and the gateway and the device API
   read different passwords.
   */
  lemma ServiceAccountsPartExample(
      o: Openssl, env: Option<string>, rootOnly: bool, template: string, operator: string, viewer: string)
    ensures var service := PlaceholderPasswords.SHORT + "\n" + "MQTT_DEVICE_API_PASSWORD" + "=" + "x";
            var b := Next(o, Fresh(env, rootOnly), ApplyHivemq(template, service, operator, viewer, true));
            && PlaceholderPasswords.Accepted(service)
            && Hivemq in b.done && BrokerRead(b, 0) == Some(PlaceholderPasswords.SHORT) && BrokerRead(b, 3) == Some("x")
  {
    var short := PlaceholderPasswords.SHORT;
    PlaceholderPasswords.ShortIsAccepted();
    LongerIsAccepted(short, "\n");
    LongerIsAccepted(short + "\n", "MQTT_DEVICE_API_PASSWORD");
    LongerIsAccepted(short + "\n" + "MQTT_DEVICE_API_PASSWORD", "=");
    LongerIsAccepted(short + "\n" + "MQTT_DEVICE_API_PASSWORD" + "=", "x");
    ShortIsBreakFree();
    ServiceAccountsPart(o, env, rootOnly, template, short, "x", operator, viewer);
  }
}
