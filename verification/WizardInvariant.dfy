/** What every reachable state of the wizard keeps, whatever the order of pages, retries, skips and failures. */
module WizardInvariant {
  import opened Wrappers
  import opened Text
  import opened WizardSteps
  import opened SecretsEnv
  import opened Percent
  import opened WizardState

  // ---------- names ----------

  /** Which page saves a name. */
  function OwnerOf(name: string): Option<Step> {
    if name in PageNames(Hivemq) then Some(Hivemq)
    else if name in PageNames(Postgres) then Some(Postgres)
    else if name in PageNames(Neo4j) then Some(Neo4j)
    else if name in PageNames(DeviceApi) then Some(DeviceApi)
    else if name in PageNames(Grafana) then Some(Grafana)
    else if name in PageNames(AnalystServer) then Some(AnalystServer)
    else if name in PageNames(DerControlApi) then Some(DerControlApi)
    else None
  }

  lemma NamesAreOwned(page: Step, i: nat)
    requires i < |PageNames(page)|
    ensures OwnerOf(PageNames(page)[i]) == Some(page) && page in SECRET_PAGES
  {
  }

  lemma NamesAreDistinct(page: Step, i: nat, j: nat)
    requires i < j < |PageNames(page)|
    ensures PageNames(page)[i] != PageNames(page)[j]
  {
  }

  predicate UpperName(s: string) {
    forall k :: 0 <= k < |s| ==> 'A' <= s[k] <= 'Z' || s[k] == '_'
  }

  lemma UpperNameIsPlain(s: string)
    requires UpperName(s)
    ensures '=' !in s && BreakFree(s)
  {
  }

  lemma BrokerNamesAreUpper()
    ensures UpperName("MQTT_GATEWAY_PASSWORD") && UpperName("MQTT_OPERATOR_PASSWORD")
    ensures UpperName("MQTT_VIEWER_PASSWORD") && UpperName("MQTT_DEVICE_API_PASSWORD")
  {
  }

  lemma MoreBrokerNamesAreUpper()
    ensures UpperName("MQTT_TELEMETRY_WRITER_PASSWORD") && UpperName("MQTT_DER_CONTROL_API_PASSWORD")
    ensures UpperName("AUTH_OPERATOR_PW") && UpperName("AUTH_VIEWER_PW")
  {
  }

  lemma UrlNamesAreUpper()
    ensures UpperName("DOCUMENT_URL") && UpperName("VECTOR_URL") && UpperName("TIMESERIES_URL")
    ensures UpperName("DER_CONTROL_URL") && UpperName("GRAPH_URL")
  {
  }

  lemma KeyNamesAreUpper()
    ensures UpperName("AUTH_JWT_SECRET") && UpperName("GF_SECURITY_ADMIN_PASSWORD")
    ensures UpperName("OPENWEATHERMAP_API_KEY") && UpperName("GRIDSTATUS_API_KEY")
  {
  }

  lemma AllowlistNameIsUpper()
    ensures UpperName("DER_CONTROL_LFDI_ALLOWLIST")
  {
  }

  lemma NamesAreUpper(page: Step, i: nat)
    requires i < |PageNames(page)|
    ensures UpperName(PageNames(page)[i])
  {
    BrokerNamesAreUpper();
    MoreBrokerNamesAreUpper();
    UrlNamesAreUpper();
    KeyNamesAreUpper();
    AllowlistNameIsUpper();
  }

  lemma NamesArePlain(page: Step, i: nat)
    requires i < |PageNames(page)|
    ensures '=' !in PageNames(page)[i] && BreakFree(PageNames(page)[i])
  {
    NamesAreUpper(page, i);
    UpperNameIsPlain(PageNames(page)[i]);
  }

  ghost predicate IsPageEntries(page: Step, entries: seq<Entry>) {
    && |entries| == |PageNames(page)|
    && forall i :: 0 <= i < |entries| ==> entries[i].name == PageNames(page)[i]
  }

  lemma PageEntriesAreWellFormed(page: Step, entries: seq<Entry>)
    requires page in SECRET_PAGES && IsPageEntries(page, entries)
    ensures entries != [] && PlainNames(entries) && IsDict(entries)
    ensures forall n :: n in Names(entries) <==> n in PageNames(page)
  {
    forall i | 0 <= i < |entries| ensures '=' !in entries[i].name && BreakFree(entries[i].name) {
      NamesArePlain(page, i);
    }
    forall i, j | 0 <= i < j < |entries| ensures entries[i].name != entries[j].name {
      NamesAreDistinct(page, i, j);
    }
    forall n | n in PageNames(page) ensures n in Names(entries) {
      var i :| 0 <= i < |PageNames(page)| && PageNames(page)[i] == n;
      assert entries[i].name == n;
    }
  }

  /** No two pages share a name. */
  lemma PagesShareNoName(p: Step, q: Step, name: string)
    requires name in PageNames(p) && name in PageNames(q)
    ensures p == q
  {
    var i :| 0 <= i < |PageNames(p)| && PageNames(p)[i] == name;
    var j :| 0 <= j < |PageNames(q)| && PageNames(q)[j] == name;
    NamesAreOwned(p, i);
    NamesAreOwned(q, j);
  }

  // ---------- the invariant ----------

  /**
   One page's last save: its names are all in the file and read what the saved entries say, and
   unbroken values read back.
   */
  ghost predicate PageSaved(env: Option<string>, page: Step, entries: seq<Entry>) {
    && page in SECRET_PAGES && IsPageEntries(page, entries)
    && (forall n :: n in PageNames(page) ==> Read(env, n).Some?)
    && (ValuesBreakFree(entries) ==> ReadsBack(env, entries))
    && ReadsAsSaid(env, entries)
  }

  ghost predicate SavedInv(b: Box) {
    && (forall page :: page in b.saved ==> PageSaved(b.env, page, b.saved[page]))
    && (forall page :: page in b.done && page in SECRET_PAGES ==> page in b.saved || page in b.skipped)
  }

  /** The URLs are percent-encoded, so they never break a line. */
  ghost predicate UrlInv(b: Box) {
    && (Postgres in b.saved ==> ValuesBreakFree(b.saved[Postgres]))
    && (Neo4j in b.saved ==> ValuesBreakFree(b.saved[Neo4j]))
  }

  predicate RolesAgree(entries: seq<Entry>) {
    && |entries| == 8
    && entries[0].value == entries[3].value == entries[4].value == entries[5].value
    && entries[1].value == entries[6].value
    && entries[2].value == entries[7].value
  }

  ghost predicate RoleInv(b: Box) {
    Hivemq in b.saved ==> RolesAgree(b.saved[Hivemq])
  }

  /** The server's password is the factory one or the one in the saved URL. */
  ghost predicate Neo4jInv(b: Box) {
    && (b.neo4j == DEFAULT_PASSWORD || (Neo4j in b.saved && GraphPassword(b.env) == Some(b.neo4j)))
    && (Neo4j in b.done ==> b.neo4j != DEFAULT_PASSWORD)
    && (b.neo4j == DEFAULT_PASSWORD || |b.neo4j| >= 8)
  }

  ghost predicate CertifiedBy(o: Openssl, cert: Option<string>, key: Option<string>) {
    cert.Some? ==> key.Some? && Matches(o, cert.value, key.value)
  }

  ghost predicate TlsInv(o: Openssl, b: Box) {
    && CertifiedBy(o, b.tls.serverCert, b.tls.serverKey)
    && CertifiedBy(o, b.tls.derCert, b.tls.derKey)
    && (b.installed.Some? ==>
          && b.tls.serverCert == b.tls.derCert == Some(b.installed.value.0)
          && b.tls.serverKey == b.tls.derKey == Some(b.installed.value.1))
  }

  ghost predicate SshInv(b: Box) {
    && (b.keyOnlySsh ==> Ssh in b.done)
    && (SshLockdown in b.done ==> Ssh in b.done)
  }

  ghost predicate Inv(o: Openssl, b: Box) {
    SavedInv(b) && UrlInv(b) && RoleInv(b) && Neo4jInv(b) && TlsInv(o, b) && SshInv(b)
  }

  // ---------- a save keeps every page's secrets ----------

  lemma OtherNameSurvives(env: Option<string>, page: Step, entries: seq<Entry>, other: Step, name: string)
    requires page in SECRET_PAGES && IsPageEntries(page, entries)
    requires other != page && name in PageNames(other) && Read(env, name).Some?
    ensures Read(Some(Saved(env, entries)), name) == Read(env, name)
  {
    PageEntriesAreWellFormed(page, entries);
    if name in Names(entries) {
      PagesShareNoName(page, other, name);
    }
    PresentNamesSurvive(env, entries, name);
  }

  lemma OtherPageSurvives(env: Option<string>, page: Step, entries: seq<Entry>, other: Step, others: seq<Entry>)
    requires page in SECRET_PAGES && IsPageEntries(page, entries)
    requires PageSaved(env, other, others) && other != page
    ensures PageSaved(Some(Saved(env, entries)), other, others)
    ensures forall n :: n in PageNames(other) ==> Read(Some(Saved(env, entries)), n) == Read(env, n)
  {
    var after := Some(Saved(env, entries));
    forall n | n in PageNames(other) ensures Read(after, n) == Read(env, n) {
      OtherNameSurvives(env, page, entries, other, n);
    }
    SameReadsStaySaved(env, after, other, others);
  }

  lemma SameReadsStaySaved(env: Option<string>, after: Option<string>, page: Step, entries: seq<Entry>)
    requires PageSaved(env, page, entries)
    requires forall n :: n in PageNames(page) ==> Read(after, n) == Read(env, n)
    ensures PageSaved(after, page, entries)
  {
    forall i | 0 <= i < |entries| ensures Read(after, entries[i].name) == Read(env, entries[i].name) {
      assert entries[i].name in PageNames(page);
    }
  }

  lemma OwnPageSaved(env: Option<string>, page: Step, entries: seq<Entry>)
    requires page in SECRET_PAGES && IsPageEntries(page, entries)
    ensures PageSaved(Some(Saved(env, entries)), page, entries)
  {
    PageEntriesAreWellFormed(page, entries);
    SavedCheckAlwaysPasses(env, entries, PageNames(page));
    ReadsBackIffBreakFree(env, entries);
    forall i | 0 <= i < |entries|
      ensures Read(Some(Saved(env, entries)), entries[i].name) == FirstSays(entries, entries[i].name)
    {
      SavedNameReadsExactly(env, entries, i);
    }
  }

  lemma SaveKeepsPages(b: Box, page: Step, entries: seq<Entry>)
    requires SavedInv(b) && page in SECRET_PAGES && IsPageEntries(page, entries)
    ensures SavedInv(SavePage(b, page, entries))
  {
    var after := SavePage(b, page, entries);
    forall q | q in after.saved ensures PageSaved(after.env, q, after.saved[q]) {
      if q == page {
        OwnPageSaved(b.env, page, entries);
      } else {
        OtherPageSurvives(b.env, page, entries, q, b.saved[q]);
      }
    }
  }

  lemma GraphUrlSurvives(env: Option<string>, page: Step, entries: seq<Entry>)
    requires page in SECRET_PAGES && page != Neo4j && IsPageEntries(page, entries) && Read(env, "GRAPH_URL").Some?
    ensures GraphPassword(Some(Saved(env, entries))) == GraphPassword(env)
  {
    assert PageNames(Neo4j)[0] == "GRAPH_URL";
    OtherNameSurvives(env, page, entries, Neo4j, "GRAPH_URL");
  }

  /** Neo4j's URL is untouched by another page's save. */
  lemma SaveKeepsNeo4j(b: Box, page: Step, entries: seq<Entry>)
    requires Neo4jInv(b) && page in SECRET_PAGES && page != Neo4j && IsPageEntries(page, entries)
    ensures Neo4jInv(SavePage(b, page, entries))
  {
    if GraphPassword(b.env).Some? {
      GraphUrlSurvives(b.env, page, entries);
    }
  }

  /** What a page other than Neo4j's saves. */
  ghost predicate GoodEntries(page: Step, entries: seq<Entry>) {
    && page in SECRET_PAGES && page != Neo4j && IsPageEntries(page, entries)
    && (page == Hivemq ==> RolesAgree(entries))
    && (page == Postgres ==> ValuesBreakFree(entries))
  }

  lemma SaveKeepsInv(o: Openssl, b: Box, page: Step, entries: seq<Entry>)
    requires Inv(o, b) && GoodEntries(page, entries)
    ensures Inv(o, SavePage(b, page, entries))
  {
    SaveKeepsPages(b, page, entries);
    SaveKeepsNeo4j(b, page, entries);
  }

  /** Marking a page done is safe once its own condition holds. */
  lemma FinishKeeps(o: Openssl, b: Box, page: Step, verified: bool)
    requires Inv(o, b)
    requires page in SECRET_PAGES ==> page in b.saved || page in b.skipped
    requires page == Neo4j && verified ==> b.neo4j != DEFAULT_PASSWORD
    requires page == SshLockdown ==> Ssh in b.done
    ensures Inv(o, Finish(b, page, verified))
  {
  }

  lemma SecretPageCases(b: Box, page: Step, entries: seq<Entry>, checked: seq<string>, probes: bool)
    ensures var t, saved := ApplySecretPage(b, page, entries, checked, probes), SavePage(b, page, entries);
            t == b || t == saved || t == Finish(saved, page, true)
  {
  }

  lemma SecretPageKeeps(o: Openssl, b: Box, page: Step, entries: seq<Entry>, checked: seq<string>, probes: bool)
    requires Inv(o, b) && GoodEntries(page, entries)
    ensures Inv(o, ApplySecretPage(b, page, entries, checked, probes))
  {
    SaveKeepsInv(o, b, page, entries);
    FinishKeeps(o, SavePage(b, page, entries), page, true);
    SecretPageCases(b, page, entries, checked, probes);
  }

  lemma PageEntriesNamed(page: Step, values: seq<string>)
    requires |values| == |PageNames(page)|
    ensures IsPageEntries(page, PageEntries(page, values))
  {
  }

  lemma {:induction false} QuoteBreakFree(password: seq<Byte>)
    ensures BreakFree(Quote(password))
  {
    QuotedChars(password);
  }

  lemma PostgresUrlBreakFree(password: seq<Byte>, gateway: string, database: string)
    requires PlainHost(gateway) && BreakFree(database)
    ensures BreakFree(PostgresUrl(password, gateway, database))
  {
    QuoteBreakFree(password);
    assert BreakFree("postgres://postgres:") && BreakFree("@") && BreakFree(":5432/");
  }

  lemma PostgresValuesBreakFree(password: seq<Byte>, gateway: string)
    requires PlainHost(gateway)
    ensures ValuesBreakFree(PageEntries(Postgres, PostgresValues(password, gateway)))
  {
    assert BreakFree("ems_document") && BreakFree("ems_vector");
    assert BreakFree("ems_timeseries") && BreakFree("ems_dercontrol");
    PostgresUrlBreakFree(password, gateway, "ems_document");
    PostgresUrlBreakFree(password, gateway, "ems_vector");
    PostgresUrlBreakFree(password, gateway, "ems_timeseries");
    PostgresUrlBreakFree(password, gateway, "ems_dercontrol");
  }

  lemma GraphUrlBreakFree(password: seq<Byte>, gateway: string)
    requires PlainHost(gateway)
    ensures BreakFree(GraphUrl(password, gateway))
  {
    QuoteBreakFree(password);
    assert BreakFree("bolt") && BreakFree(":") && BreakFree("//neo4j:") && BreakFree("@") && BreakFree(":7687");
  }

  // ---------- Neo4j ----------

  lemma GraphEntriesNamed(password: seq<Byte>, gateway: string)
    ensures IsPageEntries(Neo4j, GraphEntries(password, gateway)) && Neo4j in SECRET_PAGES
  {
  }

  /** After a save the file's URL decodes to the password it was built with. */
  lemma SavedUrlDecodes(env: Option<string>, password: seq<Byte>, gateway: string)
    requires PlainHost(gateway) && password != []
    ensures GraphPassword(Some(Saved(env, GraphEntries(password, gateway)))) == Some(password)
    ensures ValuesBreakFree(GraphEntries(password, gateway))
  {
    var entries := GraphEntries(password, gateway);
    GraphUrlBreakFree(password, gateway);
    GraphEntriesNamed(password, gateway);
    PageEntriesAreWellFormed(Neo4j, entries);
    ReadsBackIffBreakFree(env, entries);
    assert Read(Some(Saved(env, entries)), entries[0].name) == Some(entries[0].value);
    GraphUrlRoundTrip(password, gateway);
    QuotedChars(password);
  }

  /** A retry tries the server's real password, wherever it stands. */
  lemma RetryTriesTheRightPassword(b: Box)
    requires Neo4jInv(b)
    ensures b.neo4j in Candidates(b.env)
  {
  }

  lemma Neo4jSaveKeeps(o: Openssl, b: Box, password: seq<Byte>, gateway: string)
    requires Inv(o, b) && |password| >= 8 && PlainHost(gateway)
    ensures Inv(o, SavePage(b.(neo4j := password), Neo4j, GraphEntries(password, gateway)))
  {
    GraphEntriesNamed(password, gateway);
    SaveKeepsPages(b.(neo4j := password), Neo4j, GraphEntries(password, gateway));
    SavedUrlDecodes(b.env, password, gateway);
  }

  lemma Neo4jKeeps(o: Openssl, b: Box, a: Action)
    requires Inv(o, b) && a.ApplyNeo4j? && Honest(o, a)
    ensures Inv(o, Next(o, b, a))
  {
    if Neo4j !in b.done && a.gateway.Some? {
      var after := b;
      if a.boltOpens && Altered(b.neo4j, Candidates(b.env), a.willing) {
        after := SavePage(b.(neo4j := a.password), Neo4j, GraphEntries(a.password, a.gateway.value));
        Neo4jSaveKeeps(o, b, a.password, a.gateway.value);
      }
      var verified :=
        a.probes && after.neo4j == a.password && SavedCheck(after.env, after.rootOnly, ["GRAPH_URL"]);
      if verified {
        FinishKeeps(o, after, Neo4j, true);
      }
    }
  }

  // ---------- every action ----------

  lemma HivemqRolesAgree(service: string, operator: string, viewer: string)
    ensures RolesAgree(PageEntries(Hivemq, HivemqValues(service, operator, viewer)))
  {
  }

  lemma DerControlKeeps(o: Openssl, b: Box, a: Action)
    requires Inv(o, b) && a.ApplyDerControl? && Honest(o, a)
    ensures Inv(o, Next(o, b, a))
  {
    if DerControlApi !in b.done {
      var entries := [Entry("DER_CONTROL_LFDI_ALLOWLIST", a.allowlist)];
      assert IsPageEntries(DerControlApi, entries);
      SaveKeepsInv(o, b, DerControlApi, entries);
      var saved := SavePage(b, DerControlApi, entries);
      var started := saved.(tls := StartIngress(saved.tls, a.selfSigned, a.utilityCa));
      assert TlsInv(o, started);
      FinishKeeps(o, started, DerControlApi, a.probes);
    }
  }

  lemma InstallKeeps(o: Openssl, b: Box, chain: string, key: string)
    requires Inv(o, b) && Matches(o, chain, key)
    ensures Inv(o, b.(tls := Install(b.tls, chain, key), installed := Some((chain, key))))
  {
  }

  lemma HttpsKeeps(o: Openssl, b: Box, a: Action)
    requires Inv(o, b) && a.ApplyHttps?
    ensures Inv(o, Next(o, b, a))
  {
    if Https !in b.done && b.tls.pendingHost.Some? && b.tls.pendingKey.Some?
       && Matches(o, a.chain, b.tls.pendingKey.value) && a.nameMatches {
      var key := b.tls.pendingKey.value;
      InstallKeeps(o, b, a.chain, key);
      FinishKeeps(o, b.(tls := Install(b.tls, a.chain, key), installed := Some((a.chain, key))), Https, a.probes);
    }
  }

  lemma MarkSkippedKeeps(o: Openssl, b: Box, page: Step)
    requires Inv(o, b) && (page == DerControlApi || page == Https)
    ensures Inv(o, Skip(b, page))
  {
  }

  lemma LockdownKeeps(o: Openssl, b: Box, a: Action)
    requires Inv(o, b) && a.ApplySshLockdown?
    ensures Inv(o, Next(o, b, a))
  {
    if SshLockdown !in b.done && Ssh in b.done {
      FinishKeeps(o, b, SshLockdown, true);
      FinishKeeps(o, b.(keyOnlySsh := true), SshLockdown, a.passwordsOff);
    }
  }

  /** A change of the TLS directories alone keeps everything else. */
  lemma TlsChangeKeeps(o: Openssl, b: Box, tls: Tls)
    requires Inv(o, b) && TlsInv(o, b.(tls := tls))
    ensures Inv(o, b.(tls := tls))
  {
  }

  lemma RequestKeeps(o: Openssl, b: Box, a: Action)
    requires Inv(o, b) && a.RequestSigning?
    ensures Inv(o, Next(o, b, a))
  {
    var keyed := if a.newKey.Some? then b.tls.(pendingKey := a.newKey) else b.tls;
    var asked := if a.signed then keyed.(pendingHost := Some(a.host)) else keyed;
    TlsChangeKeeps(o, b, asked);
    assert Next(o, b, a) == b.(tls := asked);
  }

  lemma SecretValuesKeep(o: Openssl, b: Box, page: Step, values: seq<string>, probes: bool)
    requires Inv(o, b) && page in SECRET_PAGES && page != Neo4j && |values| == |PageNames(page)|
    requires page == Hivemq ==> RolesAgree(PageEntries(page, values))
    requires page == Postgres ==> ValuesBreakFree(PageEntries(page, values))
    ensures Inv(o, SecretPage(b, page, values, probes))
  {
    PageEntriesNamed(page, values);
    SecretPageKeeps(o, b, page, PageEntries(page, values), CheckedNames(page), probes);
  }

  lemma HivemqKeeps(o: Openssl, b: Box, a: Action)
    requires Inv(o, b) && a.ApplyHivemq?
    ensures Inv(o, Next(o, b, a))
  {
    HivemqRolesAgree(a.service, a.operator, a.viewer);
    var written := WriteCredentials(b, a.template, a.service, a.operator, a.viewer);
    assert Inv(o, written);
    SecretValuesKeep(o, written, Hivemq, HivemqValues(a.service, a.operator, a.viewer), a.probes);
  }

  lemma PostgresKeeps(o: Openssl, b: Box, a: Action)
    requires Inv(o, b) && a.ApplyPostgres? && Honest(o, a)
    ensures Inv(o, Next(o, b, a))
  {
    if a.gateway.Some? {
      PostgresValuesBreakFree(a.password, a.gateway.value);
      SecretValuesKeep(o, b, Postgres, PostgresValues(a.password, a.gateway.value), a.probes);
    }
  }

  lemma DeviceApiKeeps(o: Openssl, b: Box, a: Action)
    requires Inv(o, b) && a.ApplyDeviceApi?
    ensures Inv(o, Next(o, b, a))
  {
    SecretValuesKeep(o, b, DeviceApi, [a.jwtSecret], a.probes);
  }

  lemma GrafanaKeeps(o: Openssl, b: Box, a: Action)
    requires Inv(o, b) && a.ApplyGrafana?
    ensures Inv(o, Next(o, b, a))
  {
    SecretValuesKeep(o, b, Grafana, [a.grafanaPassword], a.probes);
  }

  lemma AnalystServerKeeps(o: Openssl, b: Box, a: Action)
    requires Inv(o, b) && a.ApplyAnalystServer?
    ensures Inv(o, Next(o, b, a))
  {
    SecretValuesKeep(o, b, AnalystServer, [a.weatherKey, a.gridKey], a.probes);
  }

  lemma OtherPageKeeps(o: Openssl, b: Box, page: Step, probes: bool)
    requires Inv(o, b) && page in OTHER_PAGES
    ensures Inv(o, if page in b.done then b else Finish(b, page, probes))
  {
    OtherPagesAreOthers(page);
    FinishKeeps(o, b, page, probes);
  }

  lemma OtherPagesAreOthers(page: Step)
    requires page in OTHER_PAGES
    ensures page !in SECRET_PAGES && page != Neo4j && page != SshLockdown
  {
  }

  lemma SecretActionsKeep(o: Openssl, b: Box, a: Action)
    requires Inv(o, b) && Honest(o, a) && SavesSecrets(a)
    ensures Inv(o, Next(o, b, a))
  {
    match a {
      case ApplyHivemq(_, _, _, _, _) => HivemqKeeps(o, b, a);
      case ApplyPostgres(_, _, _) => PostgresKeeps(o, b, a);
      case ApplyDeviceApi(_, _) => DeviceApiKeeps(o, b, a);
      case ApplyGrafana(_, _) => GrafanaKeeps(o, b, a);
      case ApplyAnalystServer(_, _, _) => AnalystServerKeeps(o, b, a);
    }
  }

  lemma NextKeepsInv(o: Openssl, b: Box, a: Action)
    requires Inv(o, b) && Honest(o, a)
    ensures Inv(o, Next(o, b, a))
  {
    match a {
      case ApplyNeo4j(_, _, _, _, _) => Neo4jKeeps(o, b, a);
      case ApplyDerControl(_, _, _, _) => DerControlKeeps(o, b, a);
      case SkipDerControl => MarkSkippedKeeps(o, b, DerControlApi);
      case RequestSigning(_, _, _) => RequestKeeps(o, b, a);
      case ApplyHttps(_, _, _) => HttpsKeeps(o, b, a);
      case SkipHttps => MarkSkippedKeeps(o, b, Https);
      case ApplySshLockdown(_, _) => LockdownKeeps(o, b, a);
      case ApplyOther(page, probes) => OtherPageKeeps(o, b, page, probes);
      case _ => SecretActionsKeep(o, b, a);
    }
  }

  lemma {:induction false} RunKeepsInv(o: Openssl, env: Option<string>, rootOnly: bool, actions: seq<Action>)
    requires AllHonest(o, actions)
    ensures Inv(o, Run(o, Fresh(env, rootOnly), actions))
  {
    if actions != [] {
      var n := |actions| - 1;
      RunKeepsInv(o, env, rootOnly, actions[..n]);
      NextKeepsInv(o, Run(o, Fresh(env, rootOnly), actions[..n]), actions[n]);
    }
  }

  // ---------- what it means for the customer ----------

  /** What a step may change of the markers and the history. */
  ghost predicate OnlyGrows(b: Box, t: Box, page: Step) {
    && b.done <= t.done <= b.done + {page} && b.skipped <= t.skipped
    && (forall p :: p in b.saved ==> p in t.saved && (p != page ==> t.saved[p] == b.saved[p]))
    && forall p :: p in t.saved ==> p in b.saved || p == page
  }

  lemma SecretPageGrows(b: Box, page: Step, entries: seq<Entry>, checked: seq<string>, probes: bool)
    ensures OnlyGrows(b, ApplySecretPage(b, page, entries, checked, probes), page)
  {
    SecretPageCases(b, page, entries, checked, probes);
  }

  lemma SecretValuesGrow(b: Box, page: Step, values: seq<string>, probes: bool)
    requires |values| == |PageNames(page)|
    ensures OnlyGrows(b, SecretPage(b, page, values, probes), page)
  {
    SecretPageGrows(b, page, PageEntries(page, values), CheckedNames(page), probes);
  }

  lemma Neo4jGrows(b: Box, a: Action)
    requires a.ApplyNeo4j?
    ensures OnlyGrows(b, NextNeo4j(b, a.password, a.gateway, a.boltOpens, a.willing, a.probes), Neo4j)
  {
  }

  lemma DerControlGrows(b: Box, a: Action)
    requires a.ApplyDerControl?
    ensures OnlyGrows(b, NextDerControl(b, a.allowlist, a.utilityCa, a.selfSigned, a.probes), DerControlApi)
  {
  }

  lemma HivemqGrows(b: Box, a: Action)
    requires a.ApplyHivemq?
    ensures OnlyGrows(b, NextHivemq(b, a.template, a.service, a.operator, a.viewer, a.probes), Hivemq)
  {
    SecretValuesGrow(WriteCredentials(b, a.template, a.service, a.operator, a.viewer), Hivemq,
      HivemqValues(a.service, a.operator, a.viewer), a.probes);
  }

  lemma PostgresGrows(b: Box, password: seq<Byte>, gateway: Option<string>, probes: bool)
    ensures OnlyGrows(b, NextPostgres(b, password, gateway, probes), Postgres)
  {
    if gateway.Some? {
      SecretValuesGrow(b, Postgres, PostgresValues(password, gateway.value), probes);
    }
  }

  predicate SavesSecrets(a: Action) {
    a.ApplyHivemq? || a.ApplyPostgres? || a.ApplyDeviceApi? || a.ApplyGrafana? || a.ApplyAnalystServer?
  }

  lemma SecretActionsGrow(o: Openssl, b: Box, a: Action)
    requires SavesSecrets(a)
    ensures OnlyGrows(b, Next(o, b, a), PageOf(a))
  {
    match a {
      case ApplyHivemq(_, _, _, _, _) => HivemqGrows(b, a);
      case ApplyPostgres(pw, gateway, probes) => PostgresGrows(b, pw, gateway, probes);
      case ApplyDeviceApi(secret, probes) => SecretValuesGrow(b, DeviceApi, [secret], probes);
      case ApplyGrafana(pw, probes) => SecretValuesGrow(b, Grafana, [pw], probes);
      case ApplyAnalystServer(weather, grid, probes) => SecretValuesGrow(b, AnalystServer, [weather, grid], probes);
    }
  }

  /** A page's action touches no other page's marker or saved values, and never unmarks a page. */
  lemma DoneOnlyGrows(o: Openssl, b: Box, a: Action)
    ensures OnlyGrows(b, Next(o, b, a), PageOf(a))
  {
    match a {
      case ApplyNeo4j(_, _, _, _, _) => Neo4jGrows(b, a);
      case ApplyDerControl(_, _, _, _) => DerControlGrows(b, a);
      case SkipDerControl =>
      case RequestSigning(_, _, _) =>
      case ApplyHttps(_, _, _) =>
      case SkipHttps =>
      case ApplySshLockdown(_, _) =>
      case ApplyOther(_, _) =>
      case _ => SecretActionsGrow(o, b, a);
    }
  }

  function PageOf(a: Action): Step {
    match a
    case ApplyHivemq(_, _, _, _, _) => Hivemq
    case ApplyPostgres(_, _, _) => Postgres
    case ApplyNeo4j(_, _, _, _, _) => Neo4j
    case ApplyDeviceApi(_, _) => DeviceApi
    case ApplyGrafana(_, _) => Grafana
    case ApplyAnalystServer(_, _, _) => AnalystServer
    case ApplyDerControl(_, _, _, _) => DerControlApi
    case SkipDerControl => DerControlApi
    case RequestSigning(_, _, _) => Https
    case ApplyHttps(_, _, _) => Https
    case SkipHttps => Https
    case ApplySshLockdown(_, _) => SshLockdown
    case ApplyOther(page, _) => page
  }

  lemma ReadsBackNeedsNoBreak(env: Option<string>, entries: seq<Entry>)
    requires ReadsBack(env, entries)
    ensures ValuesBreakFree(entries)
  {
    forall i | 0 <= i < |entries| ensures BreakFree(entries[i].value) {
      ReadIsBreakFree(env, entries[i].name);
    }
  }

  lemma SavedPageReads(env: Option<string>, page: Step, entries: seq<Entry>)
    requires PageSaved(env, page, entries)
    ensures forall n :: n in PageNames(page) ==> Read(env, n).Some?
    ensures ReadsBack(env, entries) <==> ValuesBreakFree(entries)
  {
    if ReadsBack(env, entries) {
      ReadsBackNeedsNoBreak(env, entries);
    }
  }

  /**
   In every reachable state a page marked done by its apply has all its names in the file, and they
   hold the values of its last apply exactly when none of those values has a line break.
   */
  lemma DonePagesKeepTheirSecrets(o: Openssl, env: Option<string>, rootOnly: bool, actions: seq<Action>, page: Step)
    requires AllHonest(o, actions) && page in SECRET_PAGES
    requires var b := Run(o, Fresh(env, rootOnly), actions); page in b.done && page !in b.skipped
    ensures var b := Run(o, Fresh(env, rootOnly), actions);
            && page in b.saved
            && (forall n :: n in PageNames(page) ==> Read(b.env, n).Some?)
            && (ReadsBack(b.env, b.saved[page]) <==> ValuesBreakFree(b.saved[page]))
  {
    var b := Run(o, Fresh(env, rootOnly), actions);
    RunKeepsInv(o, env, rootOnly, actions);
    SavedPageReads(b.env, page, b.saved[page]);
  }

  /** The database URLs need no such condition: whatever the passwords, they always read back. */
  lemma UrlsAlwaysReadBack(o: Openssl, env: Option<string>, rootOnly: bool, actions: seq<Action>, page: Step)
    requires AllHonest(o, actions) && (page == Postgres || page == Neo4j)
    requires page in Run(o, Fresh(env, rootOnly), actions).saved
    ensures ReadsBack(Run(o, Fresh(env, rootOnly), actions).env, Run(o, Fresh(env, rootOnly), actions).saved[page])
  {
    RunKeepsInv(o, env, rootOnly, actions);
    var b := Run(o, Fresh(env, rootOnly), actions);
    assert PageSaved(b.env, page, b.saved[page]);
  }

  /** The i-th name the broker page saves. */
  function BrokerRead(b: Box, i: nat): Option<string>
    requires i < 8
  {
    Read(b.env, PageNames(Hivemq)[i])
  }

  /** Two names of one role read the same: neither is overridden, or both are, by the same text. */
  predicate PairShares(entries: seq<Entry>, i: nat, j: nat)
    requires i < |entries| && j < |entries|
  {
    Overridden(entries, i) == Overridden(entries, j)
    && (Overridden(entries, i) ==> SaidBefore(entries, i) == SaidBefore(entries, j))
  }

  lemma PairSharesIff(b: Box, i: nat, j: nat)
    requires SavedInv(b) && Hivemq in b.saved && i < 8 && j < 8
    requires |b.saved[Hivemq]| == 8 && b.saved[Hivemq][i].value == b.saved[Hivemq][j].value
    ensures BrokerRead(b, i) == BrokerRead(b, j) <==> PairShares(b.saved[Hivemq], i, j)
  {
    BrokerReads(b, i);
    BrokerReads(b, j);
  }

  /** What the page's i-th name reads: the earlier passwords' word, else its own password's first line. */
  lemma BrokerReads(b: Box, i: nat)
    requires SavedInv(b) && Hivemq in b.saved && i < 8
    ensures |b.saved[Hivemq]| == 8 && BrokerRead(b, i) == SavedSays(b.saved[Hivemq], i)
  {
    HivemqSavesEight();
    assert PageSaved(b.env, Hivemq, b.saved[Hivemq]);
    PageReads(b.env, Hivemq, b.saved[Hivemq], i);
  }

  lemma HivemqSavesEight()
    ensures |PageNames(Hivemq)| == 8
  {
  }

  lemma PageReads(env: Option<string>, page: Step, entries: seq<Entry>, i: nat)
    requires PageSaved(env, page, entries) && i < |PageNames(page)|
    ensures |entries| == |PageNames(page)| && Read(env, PageNames(page)[i]) == SavedSays(entries, i)
  {
    PageEntriesAreWellFormed(page, entries);
    SaysBeforeOrOwn(entries, i);
    assert entries[i].name == PageNames(page)[i];
  }

  /** Nothing is saved before the first name. */
  lemma FirstIsNeverOverridden(entries: seq<Entry>)
    requires entries != []
    ensures !Overridden(entries, 0)
  {
  }

  /**
   One password per role, as read from the file, exactly as far as the submitted passwords allow: the four
   service accounts (gateway, device_api, telemetry_writer, der_control_api) read the same exactly when no
   earlier password's later line gives one of the last three another password; the broker and the HMI
   login of operator and of viewer, exactly when such lines override neither, or both alike.
   */
  lemma RolesShareTheirPassword(o: Openssl, env: Option<string>, rootOnly: bool, actions: seq<Action>)
    requires AllHonest(o, actions)
    requires Hivemq in Run(o, Fresh(env, rootOnly), actions).saved
    ensures var b := Run(o, Fresh(env, rootOnly), actions);
            var entries := b.saved[Hivemq];
            && |entries| == 8
            && (forall i: nat :: i < 8 ==> BrokerRead(b, i).Some?)
            && (BrokerRead(b, 0) == BrokerRead(b, 3) == BrokerRead(b, 4) == BrokerRead(b, 5)
                <==> !Overridden(entries, 3) && !Overridden(entries, 4) && !Overridden(entries, 5))
            && (BrokerRead(b, 1) == BrokerRead(b, 6) <==> PairShares(entries, 1, 6))
            && (BrokerRead(b, 2) == BrokerRead(b, 7) <==> PairShares(entries, 2, 7))
  {
    RunKeepsInv(o, env, rootOnly, actions);
    ReadsOfRoles(Run(o, Fresh(env, rootOnly), actions));
  }

  lemma ReadsOfRoles(b: Box)
    requires SavedInv(b) && RoleInv(b) && Hivemq in b.saved
    ensures |b.saved[Hivemq]| == 8 && forall i: nat :: i < 8 ==> BrokerRead(b, i).Some?
    ensures BrokerRead(b, 0) == BrokerRead(b, 3) <==> !Overridden(b.saved[Hivemq], 3)
    ensures BrokerRead(b, 0) == BrokerRead(b, 4) <==> !Overridden(b.saved[Hivemq], 4)
    ensures BrokerRead(b, 0) == BrokerRead(b, 5) <==> !Overridden(b.saved[Hivemq], 5)
    ensures BrokerRead(b, 1) == BrokerRead(b, 6) <==> PairShares(b.saved[Hivemq], 1, 6)
    ensures BrokerRead(b, 2) == BrokerRead(b, 7) <==> PairShares(b.saved[Hivemq], 2, 7)
  {
    EveryNameReads(b);
    SameValues(b.saved[Hivemq]);
    ServiceReads(b, 3);
    ServiceReads(b, 4);
    ServiceReads(b, 5);
    PairSharesIff(b, 1, 6);
    PairSharesIff(b, 2, 7);
  }

  lemma EveryNameReads(b: Box)
    requires SavedInv(b) && Hivemq in b.saved
    ensures forall i: nat :: i < 8 ==> BrokerRead(b, i).Some?
  {
    forall i: nat | i < 8 ensures BrokerRead(b, i).Some? {
      BrokerReads(b, i);
    }
  }

  lemma SameValues(entries: seq<Entry>)
    requires RolesAgree(entries)
    ensures entries[0].value == entries[3].value && entries[0].value == entries[4].value
    ensures entries[0].value == entries[5].value
    ensures entries[1].value == entries[6].value && entries[2].value == entries[7].value
  {
  }

  lemma ServiceReads(b: Box, i: nat)
    requires SavedInv(b) && Hivemq in b.saved && i < 8
    requires |b.saved[Hivemq]| == 8 && b.saved[Hivemq][0].value == b.saved[Hivemq][i].value
    ensures BrokerRead(b, 0) == BrokerRead(b, i) <==> !Overridden(b.saved[Hivemq], i)
  {
    FirstIsNeverOverridden(b.saved[Hivemq]);
    PairSharesIff(b, 0, i);
  }

  /** With passwords free of line breaks every role has one password. */
  lemma BreakFreeRolesShare(o: Openssl, env: Option<string>, rootOnly: bool, actions: seq<Action>)
    requires AllHonest(o, actions)
    requires var b := Run(o, Fresh(env, rootOnly), actions); Hivemq in b.saved && ValuesBreakFree(b.saved[Hivemq])
    ensures var b := Run(o, Fresh(env, rootOnly), actions);
            && BrokerRead(b, 0) == BrokerRead(b, 3) == BrokerRead(b, 4) == BrokerRead(b, 5)
            && BrokerRead(b, 1) == BrokerRead(b, 6) && BrokerRead(b, 2) == BrokerRead(b, 7)
  {
    var b := Run(o, Fresh(env, rootOnly), actions);
    RunKeepsInv(o, env, rootOnly, actions);
    var entries := b.saved[Hivemq];
    assert PageSaved(b.env, Hivemq, entries);
    PageEntriesAreWellFormed(Hivemq, entries);
    RolesShareTheirPassword(o, env, rootOnly, actions);
    forall i: nat | i < 8 ensures !Overridden(entries, i) {
      BreakFreeNeverOverrides(entries, i);
    }
  }

  lemma FirstEntrySpeaks(entries: seq<Entry>, name: string)
    requires entries != [] && EntrySays(entries[0], name).Some?
    ensures FirstSays(entries, name) == EntrySays(entries[0], name)
  {
  }

  /**
   A service password whose second line reads as another account's entry: the box then keeps two
   different passwords for the service accounts, and the page's own check of its names passes.
   */
  lemma ServiceAccountsPart(
      o: Openssl, env: Option<string>, rootOnly: bool, template: string,
      first: string, other: string, operator: string, viewer: string)
    requires BreakFree(first) && BreakFree(other) && first != other
    ensures var service := first + "\n" + "MQTT_DEVICE_API_PASSWORD" + "=" + other;
            var b := Next(o, Fresh(env, rootOnly), ApplyHivemq(template, service, operator, viewer, true));
            Hivemq in b.done && BrokerRead(b, 0) == Some(first) && BrokerRead(b, 3) == Some(other)
  {
    var service := first + "\n" + "MQTT_DEVICE_API_PASSWORD" + "=" + other;
    var entries := PageEntries(Hivemq, HivemqValues(service, operator, viewer));
    PageEntriesNamed(Hivemq, HivemqValues(service, operator, viewer));
    NamesArePlain(Hivemq, 0);
    NamesArePlain(Hivemq, 3);
    NamesAreDistinct(Hivemq, 0, 3);
    EntryWithBreakSays(entries[0].name, first, entries[3].name, other);
    SavedEntriesSay(env, entries, first, other);
    PageEntriesAreWellFormed(Hivemq, entries);
    SavedCheckAlwaysPasses(env, entries, PageNames(Hivemq));
  }

  lemma SavedEntriesSay(env: Option<string>, entries: seq<Entry>, first: string, other: string)
    requires IsPageEntries(Hivemq, entries)
    requires EntrySays(entries[0], entries[0].name) == Some(first)
    requires EntrySays(entries[0], entries[3].name) == Some(other)
    ensures Read(Some(Saved(env, entries)), PageNames(Hivemq)[0]) == Some(first)
    ensures Read(Some(Saved(env, entries)), PageNames(Hivemq)[3]) == Some(other)
  {
    SavedNameReadsExactly(env, entries, 0);
    SavedNameReadsExactly(env, entries, 3);
    FirstEntrySpeaks(entries, entries[0].name);
    FirstEntrySpeaks(entries, entries[3].name);
  }

  /**
   Neo4j: the server's password is always the factory one or the one in the saved URL, a retry always
   has it among its candidates, and once the page is done the URL decodes to it.
   */
  lemma Neo4jPasswordIsNeverLost(o: Openssl, env: Option<string>, rootOnly: bool, actions: seq<Action>)
    requires AllHonest(o, actions)
    ensures var b := Run(o, Fresh(env, rootOnly), actions);
            && (b.neo4j == DEFAULT_PASSWORD || GraphPassword(b.env) == Some(b.neo4j))
            && b.neo4j in Candidates(b.env)
            && (Neo4j in b.done ==> GraphPassword(b.env) == Some(b.neo4j))
  {
    RunKeepsInv(o, env, rootOnly, actions);
    RetryTriesTheRightPassword(Run(o, Fresh(env, rootOnly), actions));
  }

  /** Every installed certificate matches the key beside it, in both directories. */
  lemma CertificatesMatchTheirKeys(o: Openssl, env: Option<string>, rootOnly: bool, actions: seq<Action>)
    requires AllHonest(o, actions)
    ensures var tls := Run(o, Fresh(env, rootOnly), actions).tls;
            CertifiedBy(o, tls.serverCert, tls.serverKey) && CertifiedBy(o, tls.derCert, tls.derKey)
  {
    RunKeepsInv(o, env, rootOnly, actions);
  }

  lemma InstallHistory(o: Openssl, b: Box, a: Action)
    ensures !a.ApplyHttps? ==> Next(o, b, a).installed == b.installed
    ensures Https in b.done ==> Next(o, b, a).installed == b.installed
    ensures b.installed.Some? ==> Next(o, b, a).installed.Some?
  {
  }

  /** The customer's certificate, once installed, is what both directories hold; only a later install replaces it. */
  lemma CustomerCertificateStays(o: Openssl, env: Option<string>, rootOnly: bool, actions: seq<Action>, a: Action)
    requires AllHonest(o, actions) && Honest(o, a)
    requires Run(o, Fresh(env, rootOnly), actions).installed.Some?
    ensures var b := Run(o, Fresh(env, rootOnly), actions);
            var t := Next(o, b, a);
            && t.installed.Some?
            && t.tls.serverCert == t.tls.derCert == Some(t.installed.value.0)
            && t.tls.serverKey == t.tls.derKey == Some(t.installed.value.1)
            && (!a.ApplyHttps? || Https in b.done ==> t.installed == b.installed)
  {
    var b := Run(o, Fresh(env, rootOnly), actions);
    RunKeepsInv(o, env, rootOnly, actions);
    NextKeepsInv(o, b, a);
    InstallHistory(o, b, a);
    assert TlsInv(o, Next(o, b, a));
  }

  /** Password logins are only ever turned off after the customer's SSH key was proven. */
  lemma NoLockoutBeforeTheKey(o: Openssl, env: Option<string>, rootOnly: bool, actions: seq<Action>)
    requires AllHonest(o, actions)
    ensures var b := Run(o, Fresh(env, rootOnly), actions);
            (b.keyOnlySsh ==> Ssh in b.done) && (SshLockdown in b.done ==> Ssh in b.done)
  {
    RunKeepsInv(o, env, rootOnly, actions);
  }
}
