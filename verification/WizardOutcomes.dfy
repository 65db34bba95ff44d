/**
 What each page's apply leaves behind, as read from the box: names of secrets.env, the server's password,
 the TLS files, sshd, and when the page is done.
 */
module WizardOutcomes {
  import opened Wrappers
  import opened Text
  import opened WizardSteps
  import opened SecretsEnv
  import opened Percent
  import opened WizardState
  import opened WizardInvariant

  // ---------- pages that save secrets ----------

  ghost predicate AllRead(env: Option<string>, names: seq<string>) {
    forall n :: n in names ==> Read(env, n).Some?
  }

  /** What one apply of a page that saves these values leaves. */
  ghost predicate SavedAndMarked(b: Box, t: Box, page: Step, values: seq<string>, checked: seq<string>, probes: bool) {
    && |values| == |PageNames(page)|
    && (forall i :: 0 <= i < |values| ==> Read(t.env, PageNames(page)[i]) == Some(values[i]))
    && t.rootOnly
    && (page in t.done <==> probes && AllRead(t.env, checked))
    && t.neo4j == b.neo4j && t.tls == b.tls && t.keyOnlySsh == b.keyOnlySsh
  }

  ghost predicate AllBreakFreeValues(values: seq<string>) {
    forall i :: 0 <= i < |values| ==> BreakFree(values[i])
  }

  lemma SecretPageOutcome(b: Box, page: Step, values: seq<string>, probes: bool)
    requires page in SECRET_PAGES && page !in b.done && |values| == |PageNames(page)| && AllBreakFreeValues(values)
    ensures SavedAndMarked(b, SecretPage(b, page, values, probes), page, values, CheckedNames(page), probes)
  {
    var entries := PageEntries(page, values);
    SavedValuesRead(b.env, page, values);
    ApplyOutcome(b, page, entries, CheckedNames(page), probes);
  }

  /** A page that is open saves, and is marked exactly when its probes pass and its names are there. */
  lemma ApplyOutcome(b: Box, page: Step, entries: seq<Entry>, checked: seq<string>, probes: bool)
    requires page !in b.done
    ensures var t := ApplySecretPage(b, page, entries, checked, probes);
            && t.env == Some(Saved(b.env, entries)) && t.rootOnly
            && (page in t.done <==> probes && AllRead(t.env, checked))
            && t.neo4j == b.neo4j && t.tls == b.tls && t.keyOnlySsh == b.keyOnlySsh
  {
  }

  lemma SavedValuesRead(env: Option<string>, page: Step, values: seq<string>)
    requires page in SECRET_PAGES && |values| == |PageNames(page)| && AllBreakFreeValues(values)
    ensures forall i :: 0 <= i < |values| ==>
      Read(Some(Saved(env, PageEntries(page, values))), PageNames(page)[i]) == Some(values[i])
  {
    var entries := PageEntries(page, values);
    PageEntriesNamed(page, values);
    PageEntriesAreWellFormed(page, entries);
    ReadsBackIffBreakFree(env, entries);
    forall i | 0 <= i < |values| ensures Read(Some(Saved(env, entries)), PageNames(page)[i]) == Some(values[i]) {
      assert Read(Some(Saved(env, entries)), entries[i].name) == Some(entries[i].value);
    }
  }

  /** A page that is done refuses: nothing changes, whatever it is sent. */
  lemma DonePagesRefuse(o: Openssl, b: Box, a: Action)
    requires PageOf(a) in b.done && !a.RequestSigning? && !a.SkipDerControl? && !a.SkipHttps?
    ensures Next(o, b, a) == b
  {
    if a.ApplyPostgres? && a.gateway.Some? {
      assert NextPostgres(b, a.password, a.gateway, a.probes) == b;
    }
  }

  /** A page that checks the names it saves: they are all there, so the probes decide. */
  lemma OwnPageOutcome(b: Box, page: Step, values: seq<string>, probes: bool)
    requires page in SECRET_PAGES && page !in b.done && |values| == |PageNames(page)| && AllBreakFreeValues(values)
    requires CheckedNames(page) == PageNames(page)
    ensures var t := SecretPage(b, page, values, probes);
            && (forall i :: 0 <= i < |values| ==> Read(t.env, PageNames(page)[i]) == Some(values[i]))
            && (page in t.done <==> probes)
  {
    var t := SecretPage(b, page, values, probes);
    SecretPageOutcome(b, page, values, probes);
    AllReadFrom(t.env, PageNames(page), values);
  }

  lemma AllReadFrom(env: Option<string>, names: seq<string>, values: seq<string>)
    requires |names| == |values| && forall i :: 0 <= i < |values| ==> Read(env, names[i]) == Some(values[i])
    ensures AllRead(env, names)
  {
  }

  lemma HivemqNames()
    ensures PageNames(Hivemq)[0] == "MQTT_GATEWAY_PASSWORD" && PageNames(Hivemq)[1] == "MQTT_OPERATOR_PASSWORD"
    ensures PageNames(Hivemq)[2] == "MQTT_VIEWER_PASSWORD" && PageNames(Hivemq)[3] == "MQTT_DEVICE_API_PASSWORD"
    ensures PageNames(Hivemq)[4] == "MQTT_TELEMETRY_WRITER_PASSWORD"
    ensures PageNames(Hivemq)[5] == "MQTT_DER_CONTROL_API_PASSWORD"
    ensures PageNames(Hivemq)[6] == "AUTH_OPERATOR_PW" && PageNames(Hivemq)[7] == "AUTH_VIEWER_PW"
    ensures |PageNames(Hivemq)| == 8 && CheckedNames(Hivemq) == PageNames(Hivemq)
  {
  }

  /** Which name holds which of the three broker passwords. */
  ghost predicate HivemqReads(env: Option<string>, service: string, operator: string, viewer: string) {
    && Read(env, "MQTT_GATEWAY_PASSWORD") == Some(service) && Read(env, "MQTT_DEVICE_API_PASSWORD") == Some(service)
    && Read(env, "MQTT_TELEMETRY_WRITER_PASSWORD") == Some(service)
    && Read(env, "MQTT_DER_CONTROL_API_PASSWORD") == Some(service)
    && Read(env, "MQTT_OPERATOR_PASSWORD") == Some(operator) && Read(env, "AUTH_OPERATOR_PW") == Some(operator)
    && Read(env, "MQTT_VIEWER_PASSWORD") == Some(viewer) && Read(env, "AUTH_VIEWER_PW") == Some(viewer)
  }

  lemma HivemqReadsFrom(env: Option<string>, service: string, operator: string, viewer: string)
    requires |PageNames(Hivemq)| == 8
    requires forall i :: 0 <= i < 8 ==>
      Read(env, PageNames(Hivemq)[i]) == Some(HivemqValues(service, operator, viewer)[i])
    ensures HivemqReads(env, service, operator, viewer)
  {
    HivemqNames();
    var values := HivemqValues(service, operator, viewer);
    assert Read(env, PageNames(Hivemq)[0]) == Some(values[0]) && Read(env, PageNames(Hivemq)[1]) == Some(values[1]);
    assert Read(env, PageNames(Hivemq)[2]) == Some(values[2]) && Read(env, PageNames(Hivemq)[3]) == Some(values[3]);
    assert Read(env, PageNames(Hivemq)[4]) == Some(values[4]) && Read(env, PageNames(Hivemq)[5]) == Some(values[5]);
    assert Read(env, PageNames(Hivemq)[6]) == Some(values[6]) && Read(env, PageNames(Hivemq)[7]) == Some(values[7]);
  }

  lemma HivemqOutcome(
      o: Openssl, b: Box, template: string, service: string, operator: string, viewer: string, probes: bool)
    requires Hivemq !in b.done && BreakFree(service) && BreakFree(operator) && BreakFree(viewer)
    ensures var t := Next(o, b, ApplyHivemq(template, service, operator, viewer, probes));
            && HivemqReads(t.env, service, operator, viewer)
            && (Hivemq in t.done <==> probes)
  {
    var values := HivemqValues(service, operator, viewer);
    var written := WriteCredentials(b, template, service, operator, viewer);
    var t := SecretPage(written, Hivemq, values, probes);
    HivemqNames();
    OwnPageOutcome(written, Hivemq, values, probes);
    HivemqReadsFrom(t.env, service, operator, viewer);
  }

  lemma PostgresNames()
    ensures PageNames(Postgres)[0] == "DOCUMENT_URL" && PageNames(Postgres)[1] == "VECTOR_URL"
    ensures PageNames(Postgres)[2] == "TIMESERIES_URL" && PageNames(Postgres)[3] == "DER_CONTROL_URL"
    ensures |PageNames(Postgres)| == 4 && CheckedNames(Postgres) == PageNames(Postgres)
  {
  }

  /** Each database's name holds its URL at the gateway, the password percent-encoded. */
  ghost predicate PostgresReads(env: Option<string>, password: seq<Byte>, gateway: string) {
    var host := "postgres://postgres:" + Quote(password) + "@" + gateway + ":5432";
    && Read(env, "DOCUMENT_URL") == Some(host + "/ems_document")
    && Read(env, "VECTOR_URL") == Some(host + "/ems_vector")
    && Read(env, "TIMESERIES_URL") == Some(host + "/ems_timeseries")
    && Read(env, "DER_CONTROL_URL") == Some(host + "/ems_dercontrol")
  }

  lemma UrlIs(password: seq<Byte>, gateway: string, database: string)
    ensures PostgresUrl(password, gateway, database)
         == "postgres://postgres:" + Quote(password) + "@" + gateway + ":5432" + ("/" + database)
  {
    var front := "postgres://postgres:" + Quote(password) + "@" + gateway;
    assert front + ":5432/" + database == front + ":5432" + ("/" + database);
  }

  lemma DatabaseUrls(password: seq<Byte>, gateway: string)
    ensures var values := PostgresValues(password, gateway);
            var host := "postgres://postgres:" + Quote(password) + "@" + gateway + ":5432";
            && values[0] == host + "/ems_document" && values[1] == host + "/ems_vector"
            && values[2] == host + "/ems_timeseries" && values[3] == host + "/ems_dercontrol"
  {
    UrlIs(password, gateway, "ems_document");
    UrlIs(password, gateway, "ems_vector");
    UrlIs(password, gateway, "ems_timeseries");
    UrlIs(password, gateway, "ems_dercontrol");
    assert "/" + "ems_document" == "/ems_document" && "/" + "ems_vector" == "/ems_vector";
    assert "/" + "ems_timeseries" == "/ems_timeseries" && "/" + "ems_dercontrol" == "/ems_dercontrol";
  }

  lemma PostgresReadsFrom(env: Option<string>, password: seq<Byte>, gateway: string)
    requires |PageNames(Postgres)| == 4
    requires forall i :: 0 <= i < 4 ==> Read(env, PageNames(Postgres)[i]) == Some(PostgresValues(password, gateway)[i])
    ensures PostgresReads(env, password, gateway)
  {
    PostgresNames();
    var values := PostgresValues(password, gateway);
    DatabaseUrls(password, gateway);
    ReadAt(env, PageNames(Postgres), values, 0);
    ReadAt(env, PageNames(Postgres), values, 1);
    ReadAt(env, PageNames(Postgres), values, 2);
    ReadAt(env, PageNames(Postgres), values, 3);
  }

  lemma PostgresOutcome(o: Openssl, b: Box, password: seq<Byte>, gateway: Option<string>, probes: bool)
    requires Postgres !in b.done && (gateway.Some? ==> PlainHost(gateway.value))
    ensures var t := Next(o, b, ApplyPostgres(password, gateway, probes));
            && (gateway.None? ==> t == b)
            && (gateway.Some? ==> PostgresReads(t.env, password, gateway.value) && (Postgres in t.done <==> probes))
  {
    if gateway.Some? {
      var values := PostgresValues(password, gateway.value);
      var t := SecretPage(b, Postgres, values, probes);
      PostgresNames();
      PostgresValuesBreakFree(password, gateway.value);
      forall i | 0 <= i < |values| ensures BreakFree(values[i]) {
        assert PageEntries(Postgres, values)[i].value == values[i];
      }
      OwnPageOutcome(b, Postgres, values, probes);
      PostgresReadsFrom(t.env, password, gateway.value);
    }
  }

  lemma KeyNames()
    ensures |PageNames(DeviceApi)| == 1 && PageNames(DeviceApi)[0] == "AUTH_JWT_SECRET"
    ensures |PageNames(Grafana)| == 1 && PageNames(Grafana)[0] == "GF_SECURITY_ADMIN_PASSWORD"
    ensures |PageNames(AnalystServer)| == 2 && PageNames(AnalystServer)[0] == "OPENWEATHERMAP_API_KEY"
    ensures PageNames(AnalystServer)[1] == "GRIDSTATUS_API_KEY"
    ensures CheckedNames(Grafana) == PageNames(Grafana) && CheckedNames(AnalystServer) == PageNames(AnalystServer)
  {
  }

  lemma ReadAt(env: Option<string>, names: seq<string>, values: seq<string>, i: nat)
    requires i < |names| && |names| == |values|
    requires forall k :: 0 <= k < |values| ==> Read(env, names[k]) == Some(values[k])
    ensures Read(env, names[i]) == Some(values[i])
  {
  }

  lemma PostgresUrlParts(password: seq<Byte>, gateway: string, database: string)
    ensures PostgresUrl(password, gateway, database)
         == "postgres" + ":" + "//" + "postgres" + ":" + Quote(password) + "@" + (gateway + ":5432") + ("/" + database)
  {
    var front := "postgres://postgres:" + Quote(password) + "@";
    assert "postgres" + ":" + "//" + "postgres" + ":" == "postgres://postgres:";
    assert front + gateway + ":5432/" + database == front + (gateway + ":5432") + ("/" + database);
  }

  /** Every database URL carries the password: it decodes to it, whatever the database is called. */
  lemma PostgresUrlDecodes(password: seq<Byte>, gateway: string, database: string)
    requires PlainHost(gateway)
    ensures UrlPassword(PostgresUrl(password, gateway, database)) == Some(Quote(password))
    ensures Unquote(Quote(password)) == Some(password)
  {
    var user := "postgres";
    UserIsLetters(user);
    QuoteEndsNoNetloc(password);
    PlainHostWithPort(gateway);
    PostgresUrlParts(password, gateway, database);
    UserinfoIsRead(
      PostgresUrl(password, gateway, database), user, user, Quote(password), gateway + ":5432", "/" + database);
    UnquoteQuote(password);
  }

  lemma UserIsLetters(user: string)
    requires user == "postgres"
    ensures LettersAndDigits(user) && user != "" && user[0] == 'p'
  {
  }

  lemma QuoteEndsNoNetloc(password: seq<Byte>)
    ensures NoneEndsNetloc(Quote(password))
  {
    QuotedChars(password);
  }

  lemma PlainHostWithPort(gateway: string)
    requires PlainHost(gateway)
    ensures NoneEndsNetloc(gateway + ":5432") && '@' !in gateway + ":5432"
  {
  }

  /** The Device API page saves its key; it is only done once the broker page's HMI logins are there too. */
  lemma DeviceApiOutcome(o: Openssl, b: Box, jwtSecret: string, probes: bool)
    requires DeviceApi !in b.done && BreakFree(jwtSecret)
    ensures var t := Next(o, b, ApplyDeviceApi(jwtSecret, probes));
            && Read(t.env, "AUTH_JWT_SECRET") == Some(jwtSecret)
            && (DeviceApi in t.done <==>
                probes && Read(b.env, "AUTH_OPERATOR_PW").Some? && Read(b.env, "AUTH_VIEWER_PW").Some?)
  {
    var t := SecretPage(b, DeviceApi, [jwtSecret], probes);
    SecretPageOutcome(b, DeviceApi, [jwtSecret], probes);
    KeyNames();
    ReadAt(t.env, PageNames(DeviceApi), [jwtSecret], 0);
    HivemqNames();
    LoginsUntouched(b.env, jwtSecret, PageNames(Hivemq)[6]);
    LoginsUntouched(b.env, jwtSecret, PageNames(Hivemq)[7]);
    CheckedByDeviceApi(t.env);
  }

  lemma CheckedByDeviceApi(env: Option<string>)
    ensures AllRead(env, CheckedNames(DeviceApi)) <==>
      Read(env, "AUTH_JWT_SECRET").Some? && Read(env, "AUTH_OPERATOR_PW").Some? && Read(env, "AUTH_VIEWER_PW").Some?
  {
    var names := CheckedNames(DeviceApi);
    assert names[0] == "AUTH_JWT_SECRET" && names[1] == "AUTH_OPERATOR_PW" && names[2] == "AUTH_VIEWER_PW";
  }

  lemma LoginsUntouched(env: Option<string>, jwtSecret: string, name: string)
    requires BreakFree(jwtSecret) && name in PageNames(Hivemq)
    ensures Read(Some(Saved(env, PageEntries(DeviceApi, [jwtSecret]))), name) == Read(env, name)
  {
    var entries := PageEntries(DeviceApi, [jwtSecret]);
    PageEntriesNamed(DeviceApi, [jwtSecret]);
    PageEntriesAreWellFormed(DeviceApi, entries);
    if name in Names(entries) {
      PagesShareNoName(Hivemq, DeviceApi, name);
    }
    OtherNamesUnchanged(env, entries, name);
  }

  lemma GrafanaOutcome(o: Openssl, b: Box, password: string, probes: bool)
    requires Grafana !in b.done && BreakFree(password)
    ensures var t := Next(o, b, ApplyGrafana(password, probes));
            Read(t.env, "GF_SECURITY_ADMIN_PASSWORD") == Some(password) && (Grafana in t.done <==> probes)
  {
    KeyNames();
    OwnPageOutcome(b, Grafana, [password], probes);
    ReadAt(SecretPage(b, Grafana, [password], probes).env, PageNames(Grafana), [password], 0);
  }

  lemma AnalystServerOutcome(o: Openssl, b: Box, weatherKey: string, gridKey: string, probes: bool)
    requires AnalystServer !in b.done && BreakFree(weatherKey) && BreakFree(gridKey)
    ensures var t := Next(o, b, ApplyAnalystServer(weatherKey, gridKey, probes));
            && Read(t.env, "OPENWEATHERMAP_API_KEY") == Some(weatherKey)
            && Read(t.env, "GRIDSTATUS_API_KEY") == Some(gridKey)
            && (AnalystServer in t.done <==> probes)
  {
    var values := [weatherKey, gridKey];
    var t := SecretPage(b, AnalystServer, values, probes);
    KeyNames();
    OwnPageOutcome(b, AnalystServer, values, probes);
    ReadAt(t.env, PageNames(AnalystServer), values, 0);
    ReadAt(t.env, PageNames(AnalystServer), values, 1);
  }

  /**
   The DER control page: its allowlist, a certificate made only where there is none, and a truststore that
   trusts the utility's CA, or nobody when none is given.
   */
  lemma DerControlOutcome(o: Openssl, b: Box, allowlist: string, utilityCa: string, made: SelfSigned, probes: bool)
    requires DerControlApi !in b.done && BreakFree(allowlist)
    ensures var t := Next(o, b, ApplyDerControl(allowlist, utilityCa, made, probes));
            && Read(t.env, "DER_CONTROL_LFDI_ALLOWLIST") == Some(allowlist)
            && (utilityCa == "" ==> t.tls.derTruststore == TrustsNobody)
            && (utilityCa != "" ==> t.tls.derTruststore == Trusts(utilityCa))
            && t.tls.derCert == (if b.tls.derCert.Some? then b.tls.derCert else made.cert)
            && (b.tls.derCert.Some? || made.key.None? ==> t.tls.derKey == b.tls.derKey)
            && (b.tls.derCert.None? && made.key.Some? ==> t.tls.derKey == made.key)
            && t.tls.serverCert == b.tls.serverCert && t.tls.serverKey == b.tls.serverKey
            && (DerControlApi in t.done <==> probes)
  {
    var entries := [Entry("DER_CONTROL_LFDI_ALLOWLIST", allowlist)];
    assert IsPageEntries(DerControlApi, entries);
    PageEntriesAreWellFormed(DerControlApi, entries);
    ReadsBackIffBreakFree(b.env, entries);
    assert Read(Some(Saved(b.env, entries)), entries[0].name) == Some(entries[0].value);
  }

  // ---------- Neo4j ----------

  /** Where among the candidates the server's password is tried while the server is willing. */
  ghost predicate TriedAt(b: Box, willing: seq<bool>, i: int) {
    0 <= i < |Candidates(b.env)| && i < |willing| && Candidates(b.env)[i] == b.neo4j && willing[i]
  }

  /** The text of a saved GRAPH_URL. */
  function BoltUrl(password: seq<Byte>, gateway: string): string {
    "bolt://neo4j:" + Quote(password) + "@" + gateway + ":7687"
  }

  lemma GraphUrlIs(password: seq<Byte>, gateway: string)
    ensures GraphUrl(password, gateway) == BoltUrl(password, gateway)
  {
    assert "bolt" + ":" + "//neo4j:" == "bolt://neo4j:";
  }

  lemma GraphEntriesRead(env: Option<string>, password: seq<Byte>, gateway: string)
    requires |password| >= 8 && PlainHost(gateway)
    ensures var after := Some(Saved(env, GraphEntries(password, gateway)));
            GraphPassword(after) == Some(password) && Read(after, "GRAPH_URL") == Some(BoltUrl(password, gateway))
  {
    var entries := GraphEntries(password, gateway);
    SavedUrlDecodes(env, password, gateway);
    GraphEntriesNamed(password, gateway);
    PageEntriesAreWellFormed(Neo4j, entries);
    ReadsBackIffBreakFree(env, entries);
    assert Read(Some(Saved(env, entries)), entries[0].name) == Some(entries[0].value);
    GraphUrlIs(password, gateway);
  }

  lemma Neo4jSaves(b: Box, password: seq<Byte>, gateway: string, willing: seq<bool>, probes: bool, i: nat)
    requires Neo4j !in b.done && |password| >= 8 && PlainHost(gateway) && TriedAt(b, willing, i)
    ensures var t := NextNeo4j(b, password, Some(gateway), true, willing, probes);
            && t.neo4j == password && GraphPassword(t.env) == Some(password)
            && Read(t.env, "GRAPH_URL") == Some(BoltUrl(password, gateway))
            && (Neo4j in t.done <==> probes)
  {
    var after := SavePage(b.(neo4j := password), Neo4j, GraphEntries(password, gateway));
    AlteredIff(b.neo4j, Candidates(b.env), willing);
    GraphEntriesRead(b.env, password, gateway);
    OneName(after, "GRAPH_URL");
    assert Altered(b.neo4j, Candidates(b.env), willing);
  }

  /**
   In every reachable state the page can be completed: the server's password stands among the candidates,
   and if the server is willing when it is tried, the new password is set and saved, and the page is
   done as soon as the probes pass.
   */
  lemma Neo4jRetryCompletes(
      o: Openssl, env: Option<string>, rootOnly: bool, actions: seq<Action>,
      password: seq<Byte>, gateway: string, willing: seq<bool>, probes: bool)
    returns (i: nat)
    requires AllHonest(o, actions) && |password| >= 8 && PlainHost(gateway)
    requires Neo4j !in Run(o, Fresh(env, rootOnly), actions).done
    ensures var b := Run(o, Fresh(env, rootOnly), actions);
            var t := Next(o, b, ApplyNeo4j(password, Some(gateway), true, willing, probes));
            && i < |Candidates(b.env)| && Candidates(b.env)[i] == b.neo4j
            && (i < |willing| && willing[i] ==>
                  && t.neo4j == password && GraphPassword(t.env) == Some(password)
                  && Read(t.env, "GRAPH_URL") == Some(BoltUrl(password, gateway))
                  && (Neo4j in t.done <==> probes))
  {
    var b := Run(o, Fresh(env, rootOnly), actions);
    RunKeepsInv(o, env, rootOnly, actions);
    i := Neo4jCompletes(o, b, password, gateway, willing, probes);
  }

  lemma Neo4jCompletes(
      o: Openssl, b: Box, password: seq<Byte>, gateway: string, willing: seq<bool>, probes: bool)
    returns (i: nat)
    requires Neo4jInv(b) && |password| >= 8 && PlainHost(gateway) && Neo4j !in b.done
    ensures i < |Candidates(b.env)| && Candidates(b.env)[i] == b.neo4j
    ensures var t := Next(o, b, ApplyNeo4j(password, Some(gateway), true, willing, probes));
            i < |willing| && willing[i] ==>
              && t.neo4j == password && GraphPassword(t.env) == Some(password)
              && Read(t.env, "GRAPH_URL") == Some(BoltUrl(password, gateway))
              && (Neo4j in t.done <==> probes)
  {
    RetryTriesTheRightPassword(b);
    i :| 0 <= i < |Candidates(b.env)| && Candidates(b.env)[i] == b.neo4j;
    if i < |willing| && willing[i] {
      Neo4jSaves(b, password, gateway, willing, probes, i);
    }
  }

  /** Otherwise nothing is saved or changed: the page is done only if the server already had this password. */
  lemma Neo4jKeepsOtherwise(
      o: Openssl, b: Box, password: seq<Byte>, gateway: Option<string>, boltOpens: bool, willing: seq<bool>,
      probes: bool)
    requires Neo4j !in b.done && (gateway.None? || !boltOpens || forall i :: !TriedAt(b, willing, i))
    ensures var t := Next(o, b, ApplyNeo4j(password, gateway, boltOpens, willing, probes));
            && t.neo4j == b.neo4j && t.env == b.env
            && (Neo4j in t.done <==>
                gateway.Some? && probes && b.neo4j == password && b.rootOnly && Read(b.env, "GRAPH_URL").Some?)
  {
    if forall i :: !TriedAt(b, willing, i) {
      NeverTried(b, willing);
    }
    OneName(b, "GRAPH_URL");
  }

  lemma NeverTried(b: Box, willing: seq<bool>)
    requires forall i :: !TriedAt(b, willing, i)
    ensures !Altered(b.neo4j, Candidates(b.env), willing)
  {
    AlteredIff(b.neo4j, Candidates(b.env), willing);
    if Altered(b.neo4j, Candidates(b.env), willing) {
      var i :| 0 <= i < |Candidates(b.env)| && i < |willing| && Candidates(b.env)[i] == b.neo4j && willing[i];
      assert TriedAt(b, willing, i);
    }
  }

  lemma OneName(b: Box, name: string)
    ensures SavedCheck(b.env, b.rootOnly, [name]) <==> b.rootOnly && Read(b.env, name).Some?
  {
    assert [name][0] == name;
  }

  // ---------- HTTPS ----------

  lemma NotAtZero(s: string, p: string)
    requires !OccursAt(s, p, 0)
    ensures !(p <= s)
  {
  }

  lemma {:induction false} BeforeFirst(head: string, p: string, rest: string)
    requires p != "" && forall i :: 0 <= i < |head| ==> !OccursAt(head + p + rest, p, i)
    ensures BeforeText(head + p + rest, p) == head
  {
    var s := head + p + rest;
    if head == "" {
      assert s[..|p|] == p;
    } else {
      assert s[1..] == head[1..] + p + rest;
      forall i | 0 <= i < |head[1..]| ensures !OccursAt(s[1..], p, i) {
        if OccursAt(s[1..], p, i) {
          assert s[i + 1..i + 1 + |p|] == s[1..][i..i + |p|];
          assert OccursAt(s, p, i + 1);
        }
      }
      BeforeFirst(head[1..], p, rest);
      NotAtZero(s, p);
      assert [head[0]] + head[1..] == head;
    }
  }

  /** The leaf of a chain is what stands up to its first end line, without white space around it. */
  lemma LeafIsFirstBlock(left: string, block: string, right: string, end: string, rest: string)
    requires AllSpace(left) && AllSpace(right) && end == "-----END CERTIFICATE-----"
    requires block != "" && !IsSpace(block[0]) && !IsSpace(block[|block| - 1])
    requires var head := left + block + right;
             forall i :: 0 <= i < |head| ==> !OccursAt(head + end + rest, end, i)
    ensures FirstCertificate(left + block + right + end + rest) == block + "\n" + end + "\n"
  {
    EndLineIs(end);
    StripBoth(left, block, right);
    BeforeFirst(left + block + right, end, rest);
  }

  lemma EndLineIs(end: string)
    requires end == "-----END CERTIFICATE-----"
    ensures end == END_CERTIFICATE && end != ""
  {
  }

  /** A certificate is installed exactly when host and key are pending, the key is its own and the name fits. */
  lemma HttpsOutcome(o: Openssl, b: Box, chain: string, nameMatches: bool, probes: bool)
    requires Https !in b.done
    ensures var t := Next(o, b, ApplyHttps(chain, nameMatches, probes));
            var leaf := o.certPub(FirstCertificate(chain));
            var fits := b.tls.pendingHost.Some? && b.tls.pendingKey.Some? && nameMatches
                        && leaf.Some? && leaf == o.keyPub(b.tls.pendingKey.value);
            && (!fits ==> t == b)
            && (fits ==>
                  && t.tls.serverCert == t.tls.derCert == Some(chain)
                  && t.tls.serverKey == t.tls.derKey == b.tls.pendingKey
                  && t.tls.pendingKey == None && t.tls.pendingHost == b.tls.pendingHost
                  && t.tls.derTruststore == b.tls.derTruststore)
            && (Https in t.done <==> fits && probes)
            && t.env == b.env
  {
  }

  lemma RequestOutcome(o: Openssl, b: Box, host: string, newKey: Option<string>, signed: bool)
    ensures var t := Next(o, b, RequestSigning(host, newKey, signed));
            && t.tls.pendingKey == (if newKey.Some? then newKey else b.tls.pendingKey)
            && t.tls.pendingHost == (if signed then Some(host) else b.tls.pendingHost)
            && t == b.(tls := b.tls.(pendingKey := t.tls.pendingKey, pendingHost := t.tls.pendingHost))
  {
  }

  // ---------- skips and the other pages ----------

  /** A skip marks its page, as skipped, and changes nothing else. */
  lemma SkipOutcome(o: Openssl, b: Box, a: Action)
    requires a.SkipHttps? || a.SkipDerControl?
    ensures var t, page := Next(o, b, a), if a.SkipHttps? then Https else DerControlApi;
            t == b.(done := b.done + {page}, skipped := b.skipped + {page})
  {
  }

  /** Every other page is done exactly when its probes passed, now or before. */
  lemma OtherOutcome(o: Openssl, b: Box, page: Step, probes: bool)
    ensures var t := Next(o, b, ApplyOther(page, probes));
            t == b.(done := t.done) && (page in t.done <==> page in b.done || probes)
  {
  }

  // ---------- sshd ----------

  /** Password logins are turned off exactly by an apply that asks for it, on a box whose key is proven. */
  predicate TurnsPasswordsOff(b: Box, a: Action) {
    a.ApplySshLockdown? && a.disablePasswords && Ssh in b.done && SshLockdown !in b.done
  }

  /** The page is completed by keeping passwords, or by turning them off when sshd reports them off. */
  predicate CompletesLockdown(b: Box, a: Action) {
    a.ApplySshLockdown? && Ssh in b.done && SshLockdown !in b.done && (!a.disablePasswords || a.passwordsOff)
  }

  /** The i-th action did it, on the box the earlier ones left. */
  ghost predicate HappenedAt(
      o: Openssl, start: Box, actions: seq<Action>, what: (Box, Action) -> bool, i: nat)
    requires i < |actions|
  {
    what(Run(o, start, actions[..i]), actions[i])
  }

  ghost predicate Happened(o: Openssl, start: Box, actions: seq<Action>, what: (Box, Action) -> bool) {
    exists i: nat :: i < |actions| && HappenedAt(o, start, actions, what, i)
  }

  lemma HappenedInPrefix(
      o: Openssl, start: Box, actions: seq<Action>, what: (Box, Action) -> bool, n: nat, i: nat)
    requires i < n <= |actions|
    ensures HappenedAt(o, start, actions[..n], what, i) <==> HappenedAt(o, start, actions, what, i)
  {
    assert actions[..n][..i] == actions[..i] && actions[..n][i] == actions[i];
  }

  lemma HappenedStep(o: Openssl, start: Box, actions: seq<Action>, what: (Box, Action) -> bool)
    requires actions != []
    ensures var n := |actions| - 1;
            Happened(o, start, actions, what) <==>
              Happened(o, start, actions[..n], what) || what(Run(o, start, actions[..n]), actions[n])
  {
    var n := |actions| - 1;
    if i: nat :| i < |actions| && HappenedAt(o, start, actions, what, i) {
      if i < n {
        HappenedInPrefix(o, start, actions, what, n, i);
      }
    }
    if i: nat :| i < n && HappenedAt(o, start, actions[..n], what, i) {
      HappenedInPrefix(o, start, actions, what, n, i);
    }
    if what(Run(o, start, actions[..n]), actions[n]) {
      assert HappenedAt(o, start, actions, what, n);
    }
  }

  /** No other action touches sshd or this page's marker. */
  lemma OthersLeaveSsh(o: Openssl, b: Box, a: Action)
    requires !a.ApplySshLockdown?
    ensures Next(o, b, a).keyOnlySsh == b.keyOnlySsh
  {
    if SavesSecrets(a) || a.ApplyNeo4j? {
      SecretsLeaveSsh(o, b, a);
    }
  }

  lemma SecretsLeaveSsh(o: Openssl, b: Box, a: Action)
    requires SavesSecrets(a) || a.ApplyNeo4j?
    ensures Next(o, b, a).keyOnlySsh == b.keyOnlySsh
  {
  }

  lemma LockdownStep(o: Openssl, b: Box, a: Action)
    requires Honest(o, a)
    ensures Next(o, b, a).keyOnlySsh <==> b.keyOnlySsh || TurnsPasswordsOff(b, a)
    ensures SshLockdown in Next(o, b, a).done <==> SshLockdown in b.done || CompletesLockdown(b, a)
  {
    if !a.ApplySshLockdown? {
      OthersLeaveSsh(o, b, a);
      DoneOnlyGrows(o, b, a);
      assert PageOf(a) != SshLockdown;
    }
  }

  /**
   In every reachable state password logins are off exactly when some apply asked for it while the SSH key
   was proven and the page open; and the page is done exactly when some such apply kept passwords, or
   turned them off and sshd said so.
   */
  lemma {:induction false} PasswordsOffIff(o: Openssl, env: Option<string>, rootOnly: bool, actions: seq<Action>)
    requires AllHonest(o, actions)
    ensures var b := Run(o, Fresh(env, rootOnly), actions);
            && (b.keyOnlySsh <==> Happened(o, Fresh(env, rootOnly), actions, TurnsPasswordsOff))
            && (SshLockdown in b.done <==> Happened(o, Fresh(env, rootOnly), actions, CompletesLockdown))
  {
    if actions != [] {
      var n := |actions| - 1;
      PasswordsOffIff(o, env, rootOnly, actions[..n]);
      LockdownStep(o, Run(o, Fresh(env, rootOnly), actions[..n]), actions[n]);
      HappenedStep(o, Fresh(env, rootOnly), actions, TurnsPasswordsOff);
      HappenedStep(o, Fresh(env, rootOnly), actions, CompletesLockdown);
    }
  }
}
