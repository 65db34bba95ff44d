/**
 The box the setup wizard works on, and each page's `apply` as one atomic transition of it. What the
 system commands answered (a container runs, a login works, openssl's output) comes with the action.
 */
module WizardState {
  import opened Wrappers
  import opened Text
  import opened WizardSteps
  import opened SecretsEnv
  import opened Percent
  import Credentials

  // ---------- the state ----------

  /** The CA bundle clients of the DER ingress are checked against; the placeholder trusts nobody. */
  datatype Truststore = Missing | TrustsNobody | Trusts(utilityCa: string)

  /** The two TLS directories, file by file. */
  datatype Tls = Tls(
    pendingKey: Option<string>, pendingHost: Option<string>,
    serverCert: Option<string>, serverKey: Option<string>,
    derCert: Option<string>, derKey: Option<string>, derTruststore: Truststore)

  /**
   `credentials` is the broker's account file. The last three fields are history: the values of each
   page's last save, the pages marked done by a skip, and the certificate chain and key of the last HTTPS
   install.
   */
  datatype Box = Box(
    done: set<Step>, env: Option<string>, rootOnly: bool, neo4j: seq<Byte>, tls: Tls, keyOnlySsh: bool,
    credentials: Option<string>, saved: map<Step, seq<Entry>>, skipped: set<Step>, installed: Option<(string, string)>)

  /** What openssl makes of a certificate's and of a key's text: its public key, or None on an error. */
  datatype Openssl = Openssl(certPub: string -> Option<string>, keyPub: string -> Option<string>)

  /** What `openssl req -x509` left behind. */
  datatype SelfSigned = SelfSigned(key: Option<string>, cert: Option<string>)

  datatype Action =
    | ApplyHivemq(template: string, service: string, operator: string, viewer: string, probes: bool)
    | ApplyPostgres(password: seq<Byte>, gateway: Option<string>, probes: bool)
    | ApplyNeo4j(password: seq<Byte>, gateway: Option<string>, boltOpens: bool, willing: seq<bool>, probes: bool)
    | ApplyDeviceApi(jwtSecret: string, probes: bool)
    | ApplyGrafana(grafanaPassword: string, probes: bool)
    | ApplyAnalystServer(weatherKey: string, gridKey: string, probes: bool)
    | ApplyDerControl(allowlist: string, utilityCa: string, selfSigned: SelfSigned, probes: bool)
    | SkipDerControl
    | RequestSigning(host: string, newKey: Option<string>, signed: bool)
    | ApplyHttps(chain: string, nameMatches: bool, probes: bool)
    | SkipHttps
    | ApplySshLockdown(disablePasswords: bool, passwordsOff: bool)
    | ApplyOther(page: Step, probes: bool)

  // ---------- secrets ----------

  /** Neo4j's factory password, "neo4j". */
  const DEFAULT_PASSWORD: seq<Byte> := [110, 101, 111, 52, 106]

  const SECRET_PAGES := {Hivemq, Postgres, Neo4j, DeviceApi, Grafana, AnalystServer, DerControlApi}

  /** The names a page saves, in order. */
  function PageNames(page: Step): seq<string> {
    match page
    case Hivemq => ["MQTT_GATEWAY_PASSWORD", "MQTT_OPERATOR_PASSWORD", "MQTT_VIEWER_PASSWORD",
                    "MQTT_DEVICE_API_PASSWORD", "MQTT_TELEMETRY_WRITER_PASSWORD",
                    "MQTT_DER_CONTROL_API_PASSWORD", "AUTH_OPERATOR_PW", "AUTH_VIEWER_PW"]
    case Postgres => ["DOCUMENT_URL", "VECTOR_URL", "TIMESERIES_URL", "DER_CONTROL_URL"]
    case Neo4j => ["GRAPH_URL"]
    case DeviceApi => ["AUTH_JWT_SECRET"]
    case Grafana => ["GF_SECURITY_ADMIN_PASSWORD"]
    case AnalystServer => ["OPENWEATHERMAP_API_KEY", "GRIDSTATUS_API_KEY"]
    case DerControlApi => ["DER_CONTROL_LFDI_ALLOWLIST"]
    case _ => []
  }

  /** The names the page's own check looks for; the Device API page also wants the HMI logins. */
  function CheckedNames(page: Step): seq<string> {
    match page
    case DeviceApi => ["AUTH_JWT_SECRET", "AUTH_OPERATOR_PW", "AUTH_VIEWER_PW"]
    case DerControlApi => []
    case _ => PageNames(page)
  }

  function Entries(names: seq<string>, values: seq<string>): (entries: seq<Entry>)
    requires |names| == |values|
    ensures |entries| == |names|
    ensures forall i :: 0 <= i < |names| ==> entries[i] == Entry(names[i], values[i])
  {
    if names == [] then [] else [Entry(names[0], values[0])] + Entries(names[1..], values[1..])
  }

  /** One password per role: the four service accounts share one, the two people have one each. */
  function HivemqValues(service: string, operator: string, viewer: string): seq<string> {
    [service, operator, viewer, service, service, service, operator, viewer]
  }

  /** The broker's file first, then the page's secrets. */
  function NextHivemq(b: Box, template: string, service: string, operator: string, viewer: string, probes: bool): Box {
    if Hivemq in b.done then b else
      var written := WriteCredentials(b, template, service, operator, viewer);
      SecretPage(written, Hivemq, HivemqValues(service, operator, viewer), probes)
  }

  function WriteCredentials(b: Box, template: string, service: string, operator: string, viewer: string): Box {
    b.(credentials := Some(Credentials.Sequential(template, Credentials.OnPrem(service, operator, viewer))))
  }

  function PostgresUrl(password: seq<Byte>, gateway: string, database: string): string {
    "postgres://postgres:" + Quote(password) + "@" + gateway + ":5432/" + database
  }

  function PostgresValues(password: seq<Byte>, gateway: string): seq<string> {
    [PostgresUrl(password, gateway, "ems_document"), PostgresUrl(password, gateway, "ems_vector"),
     PostgresUrl(password, gateway, "ems_timeseries"), PostgresUrl(password, gateway, "ems_dercontrol")]
  }

  function PageEntries(page: Step, values: seq<string>): seq<Entry>
    requires |values| == |PageNames(page)|
  {
    Entries(PageNames(page), values)
  }

  function SavePage(b: Box, page: Step, entries: seq<Entry>): Box {
    b.(env := Some(Saved(b.env, entries)), rootOnly := true, saved := b.saved[page := entries])
  }

  /** Mark the page done when every check passed. */
  function Finish(b: Box, page: Step, verified: bool): Box {
    if verified then b.(done := b.done + {page}) else b
  }

  /** A page whose apply is: refuse when done, save, start, verify its probes and the names it checks. */
  function ApplySecretPage(b: Box, page: Step, entries: seq<Entry>, checked: seq<string>, probes: bool): Box {
    if page in b.done then b else
      var saved := SavePage(b, page, entries);
      Finish(saved, page, probes && SavedCheck(saved.env, saved.rootOnly, checked))
  }

  function SecretPage(b: Box, page: Step, values: seq<string>, probes: bool): Box
    requires |values| == |PageNames(page)|
  {
    ApplySecretPage(b, page, PageEntries(page, values), CheckedNames(page), probes)
  }

  function NextPostgres(b: Box, password: seq<Byte>, gateway: Option<string>, probes: bool): Box {
    if gateway.None? then b else SecretPage(b, Postgres, PostgresValues(password, gateway.value), probes)
  }

  // ---------- Neo4j ----------

  /** The password a saved GRAPH_URL carries; None when there is none to try. */
  function GraphPassword(env: Option<string>): Option<seq<Byte>> {
    var url := Read(env, "GRAPH_URL");
    if url.None? then None else
      var quoted := UrlPassword(url.value);
      if quoted.None? || quoted.value == "" then None else Unquote(quoted.value)
  }

  /** The old passwords `_set_password` tries, without repeats. */
  function Candidates(env: Option<string>): seq<seq<Byte>> {
    var saved := GraphPassword(env);
    if saved.None? || saved.value == DEFAULT_PASSWORD then [DEFAULT_PASSWORD] else [DEFAULT_PASSWORD, saved.value]
  }

  /**
   One ALTER attempt per candidate until one exits 0. The server changes its password only for the
   right old one, and even then it may be unwilling (it refuses to change a password to itself).
   */
  function Altered(server: seq<Byte>, olds: seq<seq<Byte>>, willing: seq<bool>): bool {
    if olds == [] then false
    else if server == olds[0] && willing != [] && willing[0] then true
    else Altered(server, olds[1..], if willing == [] then [] else willing[1..])
  }

  /** The change happens exactly when the server's own password is tried and the server is willing then. */
  lemma {:induction false} AlteredIff(server: seq<Byte>, olds: seq<seq<Byte>>, willing: seq<bool>)
    ensures Altered(server, olds, willing) <==>
      exists i :: 0 <= i < |olds| && i < |willing| && olds[i] == server && willing[i]
  {
    if olds != [] {
      var rest := if willing == [] then [] else willing[1..];
      AlteredIff(server, olds[1..], rest);
      if i :| 0 <= i < |olds| && i < |willing| && olds[i] == server && willing[i] && i > 0 {
        assert olds[1..][i - 1] == server && rest[i - 1];
      }
      if i :| 0 <= i < |olds[1..]| && i < |rest| && olds[1..][i] == server && rest[i] {
        assert olds[i + 1] == server && willing[i + 1];
      }
    }
  }

  function GraphEntries(password: seq<Byte>, gateway: string): seq<Entry> {
    [Entry("GRAPH_URL", GraphUrl(password, gateway))]
  }

  function NextNeo4j(
      b: Box, password: seq<Byte>, gateway: Option<string>, boltOpens: bool, willing: seq<bool>, probes: bool): Box {
    if Neo4j in b.done || gateway.None? then b else
      var after :=
        if boltOpens && Altered(b.neo4j, Candidates(b.env), willing)
        then SavePage(b.(neo4j := password), Neo4j, GraphEntries(password, gateway.value))
        else b;
      Finish(after, Neo4j,
        probes && after.neo4j == password && SavedCheck(after.env, after.rootOnly, ["GRAPH_URL"]))
  }

  // ---------- certificates ----------

  const END_CERTIFICATE := "-----END CERTIFICATE-----"

  /** `s.split(p)[0]`. */
  function BeforeText(s: string, p: string): string {
    if |s| < |p| then s else if p <= s then "" else [s[0]] + BeforeText(s[1..], p)
  }

  /** The leaf: the first PEM block of a chain. */
  function FirstCertificate(chain: string): string {
    Strip(BeforeText(chain, END_CERTIFICATE)) + "\n" + END_CERTIFICATE + "\n"
  }

  /** The certificate a file starts with belongs to the key. */
  predicate Matches(o: Openssl, chain: string, key: string) {
    var certKey := o.certPub(FirstCertificate(chain));
    certKey.Some? && certKey == o.keyPub(key)
  }

  /** A signing request: openssl may have replaced the pending key even when it then failed. */
  function NextRequest(b: Box, host: string, newKey: Option<string>, signed: bool): Box {
    var keyed := if newKey.Some? then b.(tls := b.tls.(pendingKey := newKey)) else b;
    if signed then keyed.(tls := keyed.tls.(pendingHost := Some(host))) else keyed
  }

  /** `_install`: chain and key into both directories; the pending key is used up. */
  function Install(tls: Tls, chain: string, key: string): Tls {
    tls.(serverCert := Some(chain), serverKey := Some(key),
         derCert := Some(chain), derKey := Some(key), pendingKey := None)
  }

  function NextHttps(o: Openssl, b: Box, chain: string, nameMatches: bool, probes: bool): Box {
    if Https in b.done || b.tls.pendingHost.None? || b.tls.pendingKey.None? then b
    else
      var key := b.tls.pendingKey.value;
      if !Matches(o, chain, key) || !nameMatches then b
      else Finish(b.(tls := Install(b.tls, chain, key), installed := Some((chain, key))), Https, probes)
  }

  /** `start_der_ingress`: a certificate only when there is none, the truststore always. */
  function StartIngress(tls: Tls, made: SelfSigned, utilityCa: string): Tls {
    var certified :=
      if tls.derCert.Some? then tls
      else tls.(derKey := if made.key.Some? then made.key else tls.derKey, derCert := made.cert);
    certified.(derTruststore := if utilityCa != "" then Trusts(utilityCa) else TrustsNobody)
  }

  function NextDerControl(b: Box, allowlist: string, utilityCa: string, made: SelfSigned, probes: bool): Box {
    if DerControlApi in b.done then b else
      var saved := SavePage(b, DerControlApi, [Entry("DER_CONTROL_LFDI_ALLOWLIST", allowlist)]);
      var started := saved.(tls := StartIngress(saved.tls, made, utilityCa));
      Finish(started, DerControlApi, probes)
  }

  /** A skip marks the page done and touches nothing else. */
  function Skip(b: Box, page: Step): Box {
    b.(done := b.done + {page}, skipped := b.skipped + {page})
  }

  // ---------- sshd ----------

  function NextLockdown(b: Box, disablePasswords: bool, passwordsOff: bool): Box {
    if SshLockdown in b.done || Ssh !in b.done then b
    else if !disablePasswords then Finish(b, SshLockdown, true)
    else Finish(b.(keyOnlySsh := true), SshLockdown, passwordsOff)
  }

  // ---------- one step of the wizard ----------

  function Next(o: Openssl, b: Box, a: Action): Box {
    match a
    case ApplyHivemq(template, s, op, v, probes) => NextHivemq(b, template, s, op, v, probes)
    case ApplyPostgres(pw, gateway, probes) => NextPostgres(b, pw, gateway, probes)
    case ApplyNeo4j(pw, gateway, bolt, willing, probes) => NextNeo4j(b, pw, gateway, bolt, willing, probes)
    case ApplyDeviceApi(secret, probes) => SecretPage(b, DeviceApi, [secret], probes)
    case ApplyGrafana(pw, probes) => SecretPage(b, Grafana, [pw], probes)
    case ApplyAnalystServer(weather, grid, probes) => SecretPage(b, AnalystServer, [weather, grid], probes)
    case ApplyDerControl(allow, ca, made, probes) => NextDerControl(b, allow, ca, made, probes)
    case SkipDerControl => Skip(b, DerControlApi)
    case RequestSigning(host, key, signed) => NextRequest(b, host, key, signed)
    case ApplyHttps(chain, name, probes) => NextHttps(o, b, chain, name, probes)
    case SkipHttps => Skip(b, Https)
    case ApplySshLockdown(disable, off) => NextLockdown(b, disable, off)
    case ApplyOther(page, probes) => if page in b.done then b else Finish(b, page, probes)
  }

  /** The pages with no state of their own here. */
  const OTHER_PAGES :=
    {Preflight, Site, Ssh, Docker, Ollama, Telemetry, IndustrialGateway, Hmi, Mlflow, AnalystModel, Prometheus}

  /** What request validation and the commands guarantee about an action. */
  ghost predicate Honest(o: Openssl, a: Action) {
    match a
    case ApplyPostgres(_, gateway, _) => gateway.Some? ==> PlainHost(gateway.value)
    case ApplyNeo4j(pw, gateway, _, _, _) => |pw| >= 8 && (gateway.Some? ==> PlainHost(gateway.value))
    case ApplyDerControl(_, _, made, _) =>
      made.cert.Some? ==> made.key.Some? && Matches(o, made.cert.value, made.key.value)
    case ApplyOther(page, _) => page in OTHER_PAGES
    case _ => true
  }

  /** A freshly installed box, whatever its secrets.env already holds. */
  function Fresh(env: Option<string>, rootOnly: bool): Box {
    var tls := Tls(None, None, None, None, None, None, Missing);
    Box({}, env, rootOnly, DEFAULT_PASSWORD, tls, false, None, map[], {}, None)
  }

  /** The box after any sequence of applies, retries, skips and failures. */
  function Run(o: Openssl, b: Box, actions: seq<Action>): Box {
    if actions == [] then b else Next(o, Run(o, b, actions[..|actions| - 1]), actions[|actions| - 1])
  }

  ghost predicate AllHonest(o: Openssl, actions: seq<Action>) {
    forall i :: 0 <= i < |actions| ==> Honest(o, actions[i])
  }
}
