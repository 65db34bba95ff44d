/**
 The `setHosts` form: one record per number, its five fields named HostName{n}, RecordType{n},
 Address{n}, MXPref{n} and TTL{n}. The receiving side reads it back by counting up while
 HostName{n} is present.
 */
module DnsForm {
  import opened Wrappers
  import opened Text
  import opened Decimal

  datatype RecordType = A | CNAME | TXT | MX

  datatype DnsRecord = DnsRecord(host: string, rtype: RecordType, address: string, ttl: int, mxPref: int)

  /** One `host` element of a reply: its XML attributes. */
  type RawHost = map<string, string>

  type Form = map<string, string>

  function TypeName(t: RecordType): string {
    match t case A => "A" case CNAME => "CNAME" case TXT => "TXT" case MX => "MX"
  }

  function ParseType(s: string): Option<RecordType> {
    if s == "A" then Some(A)
    else if s == "CNAME" then Some(CNAME)
    else if s == "TXT" then Some(TXT)
    else if s == "MX" then Some(MX)
    else None
  }

  /** A host element as a record; None where building it raises (missing attribute, unknown type, bad number). */
  function ParseHost(h: RawHost): Option<DnsRecord> {
    if "Name" in h && "Type" in h && "Address" in h && "TTL" in h && "MXPref" in h then
      var rtype, ttl, pref := ParseType(h["Type"]), ParseInt(h["TTL"]), ParseInt(h["MXPref"]);
      if rtype.Some? && ttl.Some? && pref.Some?
      then Some(DnsRecord(h["Name"], rtype.value, h["Address"], ttl.value, pref.value))
      else None
    else None
  }

  /** `list_records` on a reply: every host as a record, or None when one of them raises. */
  function ParseZone(hosts: seq<RawHost>): Option<seq<DnsRecord>> {
    if hosts == [] then Some([]) else
      var first, rest := ParseHost(hosts[0]), ParseZone(hosts[1..]);
      if first.Some? && rest.Some? then Some([first.value] + rest.value) else None
  }

  // ---------- field names ----------

  datatype Family = HostName | TypeField | AddressField | PrefField | TtlField

  function Prefix(f: Family): string {
    match f
    case HostName => "HostName"
    case TypeField => "RecordType"
    case AddressField => "Address"
    case PrefField => "MXPref"
    case TtlField => "TTL"
  }

  function Field(f: Family, n: nat): string {
    Prefix(f) + Str(n)
  }

  function FieldValue(f: Family, r: DnsRecord): string {
    match f
    case HostName => r.host
    case TypeField => TypeName(r.rtype)
    case AddressField => r.address
    case PrefField => StrInt(r.mxPref)
    case TtlField => StrInt(r.ttl)
  }

  /** The field families never collide, within a family or across two. */
  lemma FieldInjective(f: Family, m: nat, g: Family, n: nat)
    requires Field(f, m) == Field(g, n)
    ensures f == g && m == n
  {
    assert Field(f, m)[0] == Prefix(f)[0] && Field(g, n)[0] == Prefix(g)[0];
    assert f == g;
    assert Field(f, m)[|Prefix(f)|..] == Str(m);
    assert Field(g, n)[|Prefix(g)|..] == Str(n);
    StrInjective(m, n);
  }

  /** A form's fields that number no record. */
  const FIXED := {"SLD", "TLD", "EmailType", "Command", "ApiUser", "ApiKey", "UserName", "ClientIp"}

  lemma FieldIsNotFixed(f: Family, n: nat)
    ensures Field(f, n) !in FIXED
  {
    var k := Field(f, n);
    assert k[|k| - 1] == Str(n)[|Str(n)| - 1];
    assert IsDigit(k[|k| - 1]);
    assert forall w :: w in FIXED ==> |w| > 0 && !IsDigit(w[|w| - 1]);
  }

  // ---------- encoding ----------

  /** One turn of the loop in `_set_records`. */
  function AddRecord(form: Form, n: nat, r: DnsRecord): Form {
    form + map[Field(HostName, n) := r.host, Field(TypeField, n) := TypeName(r.rtype),
               Field(AddressField, n) := r.address, Field(PrefField, n) := StrInt(r.mxPref),
               Field(TtlField, n) := StrInt(r.ttl)]
  }

  function AddRecords(form: Form, n: nat, records: seq<DnsRecord>): Form
    decreases |records|
  {
    if records == [] then form else AddRecords(AddRecord(form, n, records[0]), n + 1, records[1..])
  }

  ghost predicate HasMx(records: seq<DnsRecord>) {
    exists i :: 0 <= i < |records| && records[i].rtype == MX
  }

  /** `domain.split(".", 1)`; None where unpacking the one piece raises. */
  function SplitDomain(domain: string): Option<(string, string)> {
    if '.' in domain then Some((Before(domain, '.'), After(domain, '.'))) else None
  }

  /** The first dot parts the second-level domain from the rest. */
  lemma SplitDomainIff(domain: string, sld: string, tld: string)
    ensures SplitDomain(domain) == Some((sld, tld)) <==> domain == sld + "." + tld && '.' !in sld
  {
    if '.' in domain {
      var i := IndexOf(domain, '.');
      assert domain == domain[..i] + "." + domain[i + 1..];
    }
    if domain == sld + "." + tld && '.' !in sld {
      assert domain[|sld|] == '.';
      PartitionAt(sld, '.', tld);
    }
  }

  /** The fields a form starts from. */
  function DomainFields(zone: (string, string)): Form {
    map["SLD" := zone.0, "TLD" := zone.1]
  }

  /** The fields `_set_records` sends. */
  ghost function Encode(zone: (string, string), records: seq<DnsRecord>): Form {
    var numbered := AddRecords(DomainFields(zone), 1, records);
    if HasMx(records) then numbered["EmailType" := "MX"] else numbered
  }

  method SetRecordsForm(zone: (string, string), records: seq<DnsRecord>) returns (fields: Form)
    ensures fields == Encode(zone, records)
  {
    fields := DomainFields(zone);
    var anyMx := false;
    for n := 0 to |records|
      invariant AddRecords(fields, n + 1, records[n..]) == AddRecords(DomainFields(zone), 1, records)
      invariant anyMx <==> HasMx(records[..n])
    {
      AddRecordsUnfold(fields, records, n);
      fields := AddRecord(fields, n + 1, records[n]);
      HasMxStep(records, n);
      anyMx := anyMx || records[n].rtype == MX;
    }
    assert records[..|records|] == records;
    if anyMx {
      fields := fields["EmailType" := "MX"];
    }
  }

  lemma AddRecordsUnfold(form: Form, records: seq<DnsRecord>, n: nat)
    requires n < |records|
    ensures AddRecords(form, n + 1, records[n..])
         == AddRecords(AddRecord(form, n + 1, records[n]), n + 2, records[n + 1..])
  {
    assert records[n..][1..] == records[n + 1..];
  }

  lemma HasMxStep(records: seq<DnsRecord>, n: nat)
    requires n < |records|
    ensures HasMx(records[..n + 1]) <==> HasMx(records[..n]) || records[n].rtype == MX
  {
    assert records[..n + 1] == records[..n] + [records[n]];
    if HasMx(records[..n]) {
      var i :| 0 <= i < n && records[..n][i].rtype == MX;
      assert records[..n + 1][i].rtype == MX;
    }
    assert records[..n + 1][n] == records[n];
  }

  /** A key the numbered fields from `n` on do not use. */
  ghost predicate OutsideNumbers(key: string, n: nat, count: nat) {
    forall f: Family, m: nat :: n <= m < n + count ==> key != Field(f, m)
  }

  lemma AddRecordKeeps(form: Form, n: nat, r: DnsRecord, key: string)
    requires forall f: Family :: key != Field(f, n)
    ensures key in AddRecord(form, n, r) <==> key in form
    ensures key in form ==> AddRecord(form, n, r)[key] == form[key]
  {
  }

  lemma AddRecordSets(form: Form, n: nat, r: DnsRecord, f: Family)
    ensures Field(f, n) in AddRecord(form, n, r) && AddRecord(form, n, r)[Field(f, n)] == FieldValue(f, r)
  {
    forall g: Family, h: Family | Field(g, n) == Field(h, n) ensures g == h {
      FieldInjective(g, n, h, n);
    }
  }

  lemma {:induction false} AddRecordsKeep(form: Form, n: nat, records: seq<DnsRecord>, key: string)
    requires OutsideNumbers(key, n, |records|)
    ensures key in AddRecords(form, n, records) <==> key in form
    ensures key in form ==> AddRecords(form, n, records)[key] == form[key]
    decreases |records|
  {
    if records != [] {
      AddRecordKeeps(form, n, records[0], key);
      AddRecordsKeep(AddRecord(form, n, records[0]), n + 1, records[1..], key);
    }
  }

  lemma LaterFieldsDiffer(f: Family, n: nat, count: nat)
    ensures OutsideNumbers(Field(f, n), n + 1, count)
  {
    forall g: Family, m: nat | n + 1 <= m < n + 1 + count ensures Field(f, n) != Field(g, m) {
      if Field(f, n) == Field(g, m) {
        FieldInjective(f, n, g, m);
      }
    }
  }

  lemma {:induction false} AddRecordsSet(form: Form, n: nat, records: seq<DnsRecord>, f: Family, m: nat)
    requires n <= m < n + |records|
    ensures Field(f, m) in AddRecords(form, n, records)
    ensures AddRecords(form, n, records)[Field(f, m)] == FieldValue(f, records[m - n])
    decreases |records|
  {
    var form' := AddRecord(form, n, records[0]);
    if m == n {
      AddRecordSets(form, n, records[0], f);
      LaterFieldsDiffer(f, n, |records[1..]|);
      AddRecordsKeep(form', n + 1, records[1..], Field(f, n));
    } else {
      AddRecordsSet(form', n + 1, records[1..], f, m);
    }
  }

  /** What an encoded form holds: the numbered fields of its records, and no further HostName. */
  ghost predicate Holds(form: Form, n: nat, records: seq<DnsRecord>) {
    && (forall f: Family, m: nat :: n <= m < n + |records| ==>
         Field(f, m) in form && form[Field(f, m)] == FieldValue(f, records[m - n]))
    && Field(HostName, n + |records|) !in form
  }

  lemma NextHostNameIsNew(count: nat)
    ensures OutsideNumbers(Field(HostName, 1 + count), 1, count)
  {
    forall g: Family, m: nat | 1 <= m < 1 + count ensures Field(HostName, 1 + count) != Field(g, m) {
      if Field(HostName, 1 + count) == Field(g, m) {
        FieldInjective(HostName, 1 + count, g, m);
      }
    }
  }

  /** The form maps this name to this value. */
  predicate Maps(form: Form, key: string, value: string) {
    key in form && form[key] == value
  }

  /** The five fields a record has on the wire under its number. */
  predicate OnTheWire(form: Form, n: nat, r: DnsRecord) {
    && Maps(form, "HostName" + Str(n), r.host) && Maps(form, "RecordType" + Str(n), TypeName(r.rtype))
    && Maps(form, "Address" + Str(n), r.address) && Maps(form, "MXPref" + Str(n), StrInt(r.mxPref))
    && Maps(form, "TTL" + Str(n), StrInt(r.ttl))
  }

  lemma FieldsAreNamed(n: nat)
    ensures Field(HostName, n) == "HostName" + Str(n) && Field(TypeField, n) == "RecordType" + Str(n)
    ensures Field(AddressField, n) == "Address" + Str(n) && Field(PrefField, n) == "MXPref" + Str(n)
    ensures Field(TtlField, n) == "TTL" + Str(n)
  {
  }

  lemma HeldOnTheWire(form: Form, records: seq<DnsRecord>, i: nat)
    requires Holds(form, 1, records) && i < |records|
    ensures OnTheWire(form, i + 1, records[i])
  {
    FieldsAreNamed(i + 1);
    HeldFields(form, records, i);
  }

  lemma HeldFields(form: Form, records: seq<DnsRecord>, i: nat)
    requires Holds(form, 1, records) && i < |records|
    ensures forall f: Family :: Maps(form, Field(f, i + 1), FieldValue(f, records[i]))
  {
    forall f: Family ensures Maps(form, Field(f, i + 1), FieldValue(f, records[i])) {
      assert Field(f, i + 1) in form && form[Field(f, i + 1)] == FieldValue(f, records[i + 1 - 1]);
    }
  }

  /** Every record is on the wire under its number, counted from 1, and no HostName follows the last. */
  lemma EncodeHolds(zone: (string, string), records: seq<DnsRecord>)
    ensures Holds(Encode(zone, records), 1, records)
    ensures forall i: nat :: i < |records| ==> OnTheWire(Encode(zone, records), i + 1, records[i])
    ensures "HostName" + Str(|records| + 1) !in Encode(zone, records)
  {
    EncodedFields(zone, records);
    forall i: nat | i < |records| ensures OnTheWire(Encode(zone, records), i + 1, records[i]) {
      HeldOnTheWire(Encode(zone, records), records, i);
    }
    FieldsAreNamed(|records| + 1);
  }

  lemma EncodedFields(zone: (string, string), records: seq<DnsRecord>)
    ensures Holds(Encode(zone, records), 1, records)
  {
    var base := DomainFields(zone);
    var numbered := AddRecords(base, 1, records);
    assert Holds(numbered, 1, records) by {
      forall f: Family, m: nat | 1 <= m < 1 + |records|
        ensures Field(f, m) in numbered && numbered[Field(f, m)] == FieldValue(f, records[m - 1])
      {
        AddRecordsSet(base, 1, records, f, m);
      }
      NextHostNameIsNew(|records|);
      AddRecordsKeep(base, 1, records, Field(HostName, 1 + |records|));
      FieldIsNotFixed(HostName, 1 + |records|);
    }
    EmailTypeChangesNothing(numbered, 1, records);
  }

  lemma EmailTypeChangesNothing(form: Form, n: nat, records: seq<DnsRecord>)
    requires Holds(form, n, records)
    ensures Holds(form["EmailType" := "MX"], n, records)
  {
    forall f: Family, m: nat ensures Field(f, m) != "EmailType" {
      FieldIsNotFixed(f, m);
    }
  }

  // ---------- decoding ----------

  /** The host element the server keeps for number `n`; None when a field of it is missing. */
  function HostAt(form: Form, n: nat): Option<RawHost> {
    if Field(HostName, n) in form && Field(TypeField, n) in form && Field(AddressField, n) in form
       && Field(PrefField, n) in form && Field(TtlField, n) in form
    then Some(map["Name" := form[Field(HostName, n)], "Type" := form[Field(TypeField, n)],
                  "Address" := form[Field(AddressField, n)], "MXPref" := form[Field(PrefField, n)],
                  "TTL" := form[Field(TtlField, n)]])
    else None
  }

  /**
   Counts up from `n` while HostName{n} is present. The name just read is dropped from the form,
   which shrinks it; no later number reads it again.
   */
  function Decode(form: Form, n: nat): Option<seq<RawHost>>
    decreases |form|
  {
    if Field(HostName, n) !in form then Some([])
    else
      var first := HostAt(form, n);
      var smaller := form - {Field(HostName, n)};
      assert |smaller| < |form| by {
        assert smaller.Keys == form.Keys - {Field(HostName, n)};
      }
      var rest := Decode(smaller, n + 1);
      if first.Some? && rest.Some? then Some([first.value] + rest.value) else None
  }

  function RawOf(r: DnsRecord): RawHost {
    map["Name" := r.host, "Type" := TypeName(r.rtype), "Address" := r.address,
        "MXPref" := StrInt(r.mxPref), "TTL" := StrInt(r.ttl)]
  }

  function RawZone(records: seq<DnsRecord>): seq<RawHost> {
    if records == [] then [] else [RawOf(records[0])] + RawZone(records[1..])
  }

  lemma HoldsTail(form: Form, n: nat, records: seq<DnsRecord>)
    requires Holds(form, n, records) && records != []
    ensures Holds(form - {Field(HostName, n)}, n + 1, records[1..])
  {
    var smaller := form - {Field(HostName, n)};
    forall f: Family, m: nat | n + 1 <= m < n + 1 + |records[1..]|
      ensures Field(f, m) in smaller && smaller[Field(f, m)] == FieldValue(f, records[1..][m - n - 1])
    {
      if Field(f, m) == Field(HostName, n) {
        FieldInjective(f, m, HostName, n);
      }
    }
  }

  lemma HostAtIs(form: Form, n: nat, records: seq<DnsRecord>)
    requires Holds(form, n, records) && records != []
    ensures HostAt(form, n) == Some(RawOf(records[0])) && Field(HostName, n) in form
  {
  }

  lemma {:induction false} DecodeHeld(form: Form, n: nat, records: seq<DnsRecord>)
    requires Holds(form, n, records)
    ensures Decode(form, n) == Some(RawZone(records))
    decreases |records|
  {
    if records != [] {
      HostAtIs(form, n, records);
      HoldsTail(form, n, records);
      DecodeHeld(form - {Field(HostName, n)}, n + 1, records[1..]);
    }
  }

  lemma ParseRawHost(r: DnsRecord)
    ensures ParseHost(RawOf(r)) == Some(r)
  {
    ParseIntOfStr(r.ttl);
    ParseIntOfStr(r.mxPref);
    assert ParseType(TypeName(r.rtype)) == Some(r.rtype);
  }

  lemma ParseZoneCons(h: RawHost, rest: seq<RawHost>, r: DnsRecord, records: seq<DnsRecord>)
    requires ParseHost(h) == Some(r) && ParseZone(rest) == Some(records)
    ensures ParseZone([h] + rest) == Some([r] + records)
  {
    assert ([h] + rest)[1..] == rest;
  }

  lemma {:induction false} ParseRawZone(records: seq<DnsRecord>)
    ensures ParseZone(RawZone(records)) == Some(records)
  {
    if records != [] {
      ParseRawHost(records[0]);
      ParseRawZone(records[1..]);
      ParseZoneCons(RawOf(records[0]), RawZone(records[1..]), records[0], records[1..]);
      assert [records[0]] + records[1..] == records;
    }
  }

  /** Decoding what was encoded returns exactly the records, for every length. */
  lemma DecodeEncode(zone: (string, string), records: seq<DnsRecord>)
    ensures Decode(Encode(zone, records), 1).Some?
    ensures ParseZone(Decode(Encode(zone, records), 1).value) == Some(records)
  {
    EncodeHolds(zone, records);
    DecodeHeld(Encode(zone, records), 1, records);
    ParseRawZone(records);
  }

  /** EmailType rides along exactly when some record is MX, and the domain's two fields survive the loop. */
  lemma EmailTypeIffMx(zone: (string, string), records: seq<DnsRecord>)
    ensures var form := Encode(zone, records);
            && ("EmailType" in form <==> HasMx(records))
            && "SLD" in form && form["SLD"] == zone.0
            && "TLD" in form && form["TLD"] == zone.1
  {
    forall key | key in FIXED ensures OutsideNumbers(key, 1, |records|) {
      forall f: Family, m: nat | 1 <= m < 1 + |records| ensures key != Field(f, m) {
        FieldIsNotFixed(f, m);
      }
      assert OutsideNumbers(key, 1, |records|);
    }
    AddRecordsKeep(DomainFields(zone), 1, records, "EmailType");
    AddRecordsKeep(DomainFields(zone), 1, records, "SLD");
    AddRecordsKeep(DomainFields(zone), 1, records, "TLD");
  }
}
