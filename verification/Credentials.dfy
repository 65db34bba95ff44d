/**
 The broker's credentials.xml: a template whose __NAME__ placeholders are replaced one account after
 the other by the account's escaped password (sections 2.4 and 4.6 of XML 1.0).
 */
module Credentials {
  import opened Wrappers
  import opened Text

  // ---------- the escape ----------

  /** `xml.sax.saxutils.escape`. */
  function Escape(s: string): string {
    Replace(Replace(Replace(s, "&", "&amp;"), ">", "&gt;"), "<", "&lt;")
  }

  function EscapedChar(c: char): string {
    if c == '&' then "&amp;" else if c == '>' then "&gt;" else if c == '<' then "&lt;" else [c]
  }

  lemma AmpStays()
    ensures Replace("&amp;", ">", "&gt;") == "&amp;" && Replace("&amp;", "<", "&lt;") == "&amp;"
    ensures Replace("&gt;", "<", "&lt;") == "&gt;"
  {
    NoSuchChar("&amp;", '>', "&gt;");
    NoSuchChar("&amp;", '<', "&lt;");
    NoSuchChar("&gt;", '<', "&lt;");
  }

  lemma {:induction false} NoSuchChar(s: string, c: char, v: string)
    requires c !in s
    ensures Replace(s, [c], v) == s
  {
    if s != "" {
      ReplaceCharHead(s, c, v);
      NoSuchChar(s[1..], c, v);
      assert [s[0]] + s[1..] == s;
    }
  }

  lemma EscapeOne(c: char)
    ensures Replace(Replace(if c == '&' then "&amp;" else [c], ">", "&gt;"), "<", "&lt;") == EscapedChar(c)
  {
    AmpStays();
    if c == '>' {
      ReplaceWhole(">", "&gt;");
    } else if c != '&' {
      NoSuchChar([c], '>', "&gt;");
      if c == '<' {
        ReplaceWhole("<", "&lt;");
      } else {
        NoSuchChar([c], '<', "&lt;");
      }
    }
  }

  /** The three replaces together escape character by character. */
  lemma EscapeHead(s: string)
    requires s != ""
    ensures Escape(s) == EscapedChar(s[0]) + Escape(s[1..])
  {
    var first := if s[0] == '&' then "&amp;" else [s[0]];
    var rest := Replace(s[1..], "&", "&amp;");
    ReplaceCharHead(s, '&', "&amp;");
    ReplaceCharConcat(first, rest, '>', "&gt;");
    ReplaceCharConcat(Replace(first, ">", "&gt;"), Replace(rest, ">", "&gt;"), '<', "&lt;");
    EscapeOne(s[0]);
  }

  /** How an XML parser reads an element's text up to its next tag. */
  function ReadText(s: string): Option<(string, string)> {
    if s == "" then None
    else if s[0] == '<' then Some(("", s))
    else if s[0] != '&' then Prefixed(s[0], ReadText(s[1..]))
    else if "&amp;" <= s then Prefixed('&', ReadText(s[5..]))
    else if "&gt;" <= s then Prefixed('>', ReadText(s[4..]))
    else if "&lt;" <= s then Prefixed('<', ReadText(s[4..]))
    else None
  }

  function Prefixed(c: char, rest: Option<(string, string)>): Option<(string, string)> {
    if rest.None? then None else Some(([c] + rest.value.0, rest.value.1))
  }

  lemma ReadEscapedChar(c: char, rest: string)
    ensures ReadText(EscapedChar(c) + rest) == Prefixed(c, ReadText(rest))
  {
    var s := EscapedChar(c) + rest;
    if c == '&' {
      assert s[..5] == "&amp;" && s[5..] == rest;
    } else if c == '>' {
      assert s[..4] == "&gt;" && s[4..] == rest && s[1] != 'a';
    } else if c == '<' {
      assert s[..4] == "&lt;" && s[4..] == rest && s[1] != 'a' && s[1] != 'g';
    } else {
      assert s[0] == c && s[1..] == rest;
    }
  }

  /** XML reads back exactly the password, then the tag that follows it: no password can end its element. */
  lemma {:induction false} ReadEscaped(password: string, rest: string)
    requires rest != "" && rest[0] == '<'
    ensures ReadText(Escape(password) + rest) == Some((password, rest))
  {
    if password == "" {
      assert Escape(password) + rest == rest;
    } else {
      EscapeHead(password);
      ReadEscaped(password[1..], rest);
      Assoc(EscapedChar(password[0]), Escape(password[1..]), rest);
      ReadEscapedChar(password[0], Escape(password[1..]) + rest);
      assert [password[0]] + password[1..] == password;
    }
  }

  // ---------- placeholders ----------

  predicate NameChar(c: char) {
    'A' <= c <= 'Z' || c == '_'
  }

  /** Upper-case words joined by single underscores. */
  predicate PlainName(n: string) {
    && n != "" && n[0] != '_' && n[|n| - 1] != '_'
    && (forall i :: 0 <= i < |n| ==> NameChar(n[i]))
    && (forall i :: 0 <= i < |n| - 1 ==> n[i] != '_' || n[i + 1] != '_')
  }

  function Placeholder(name: string): (p: string)
    ensures |p| == |name| + 4
  {
    "__" + name + "__"
  }

  lemma NotDouble(name: string, k: nat)
    requires PlainName(name) && 0 < k < |name| + 2
    ensures Placeholder(name)[k] != '_' || Placeholder(name)[k + 1] != '_'
  {
    var p := Placeholder(name);
    if k == 1 {
      assert p[2] == name[0];
    } else if k == |name| + 1 {
      assert p[k] == name[|name| - 1];
    } else {
      assert p[k] == name[k - 2] && p[k + 1] == name[k - 1];
    }
  }

  /** A double underscore stands only at a placeholder's two ends. */
  lemma DoubleUnderscores(name: string, i: nat)
    requires PlainName(name) && i + 2 <= |name| + 4
    requires Placeholder(name)[i] == '_' && Placeholder(name)[i + 1] == '_'
    ensures i == 0 || i == |name| + 2
  {
    if 0 < i < |name| + 2 {
      NotDouble(name, i);
    }
  }

  lemma OccurrenceIsWhole(m: string, n: string, i: nat)
    requires PlainName(m) && PlainName(n) && OccursAt(Placeholder(m), Placeholder(n), i)
    ensures m == n
  {
    var p, q := Placeholder(m), Placeholder(n);
    assert p[i..i + |q|] == q && q[0] == '_' && q[1] == '_' && q[|n| + 2] == '_' && q[|n| + 3] == '_';
    assert p[i] == q[0] && p[i + 1] == q[1] && p[i + |n| + 2] == q[|n| + 2] && p[i + |n| + 3] == q[|n| + 3];
    DoubleUnderscores(m, i);
    DoubleUnderscores(m, i + |n| + 2);
    assert p[i..i + |q|] == p;
    assert p[2..|m| + 2] == m && q[2..|n| + 2] == n;
  }

  /** No placeholder holds another one. */
  lemma PlaceholdersApart(m: string, n: string)
    requires PlainName(m) && PlainName(n) && m != n
    ensures !Contains(Placeholder(m), Placeholder(n))
  {
    if Contains(Placeholder(m), Placeholder(n)) {
      var i: nat :| OccursAt(Placeholder(m), Placeholder(n), i);
      OccurrenceIsWhole(m, n, i);
    }
  }

  // ---------- filling one account after the other ----------

  datatype Account = Account(name: string, password: string)

  /** `render_credentials`, as a function of the remaining accounts. */
  function Sequential(s: string, accounts: seq<Account>): string
    decreases |accounts|
  {
    if accounts == [] then s
    else Sequential(Replace(s, Placeholder(accounts[0].name), Escape(accounts[0].password)), accounts[1..])
  }

  method RenderCredentials(template: string, accounts: seq<Account>) returns (rendered: string)
    ensures rendered == Sequential(template, accounts)
  {
    rendered := template;
    assert accounts[0..] == accounts;
    for i := 0 to |accounts|
      invariant Sequential(rendered, accounts[i..]) == Sequential(template, accounts)
    {
      assert accounts[i..][1..] == accounts[i + 1..];
      rendered := Replace(rendered, Placeholder(accounts[i].name), Escape(accounts[i].password));
    }
  }

  // ---------- templates ----------

  /** A hole and the text after it. */
  datatype Hole = Hole(name: string, after: string)

  datatype Template = Template(head: string, holes: seq<Hole>)

  function FillHoles(holes: seq<Hole>, fill: string -> string): string {
    if holes == [] then "" else fill(holes[0].name) + (holes[0].after + FillHoles(holes[1..], fill))
  }

  /** The template with every hole filled at once. */
  function Fill(t: Template, fill: string -> string): string {
    t.head + FillHoles(t.holes, fill)
  }

  /** The template's own text. */
  function Source(t: Template): string {
    Fill(t, Placeholder)
  }

  /** The text between holes starts and ends on characters no placeholder has, and holds no placeholder. */
  ghost predicate GoodLiteral(s: string, name: string) {
    && s != "" && !NameChar(s[0]) && !NameChar(s[|s| - 1])
    && !Contains(s, Placeholder(name))
  }

  ghost predicate GoodHoles(holes: seq<Hole>, name: string) {
    forall i :: 0 <= i < |holes| ==> GoodLiteral(holes[i].after, name)
  }

  ghost predicate GoodTemplate(t: Template, accounts: seq<Account>) {
    forall k :: 0 <= k < |accounts| ==>
      PlainName(accounts[k].name) && GoodLiteral(t.head, accounts[k].name) && GoodHoles(t.holes, accounts[k].name)
  }

  lemma {:induction false} FillSame(holes: seq<Hole>, f: string -> string, g: string -> string)
    requires forall i :: 0 <= i < |holes| ==> f(holes[i].name) == g(holes[i].name)
    ensures FillHoles(holes, f) == FillHoles(holes, g)
  {
    if holes != [] {
      FillSame(holes[1..], f, g);
    }
  }

  lemma OnlyNameChars(name: string)
    requires PlainName(name)
    ensures forall c :: c in Placeholder(name) ==> NameChar(c)
  {
  }

  function Replaced(fill: string -> string, name: string, v: string): string -> string {
    n => Replace(fill(n), Placeholder(name), v)
  }

  /** A replace works hole by hole: nothing it looks for can straddle a hole's edge. */
  lemma {:induction false} ReplaceInHoles(holes: seq<Hole>, fill: string -> string, name: string, v: string)
    requires PlainName(name) && GoodHoles(holes, name)
    ensures Replace(FillHoles(holes, fill), Placeholder(name), v) == FillHoles(holes, Replaced(fill, name, v))
  {
    if holes != [] {
      var p, after, rest := Placeholder(name), holes[0].after, FillHoles(holes[1..], fill);
      OnlyNameChars(name);
      ReplaceInHoles(holes[1..], fill, name, v);
      assert (after + rest)[0] == after[0];
      ReplaceAcrossSeam(fill(holes[0].name), after + rest, p, v);
      ReplaceAcrossSeam(after, rest, p, v);
      ReplaceAbsent(after, p, v);
    }
  }

  lemma ReplaceInTemplate(t: Template, fill: string -> string, name: string, v: string)
    requires PlainName(name) && GoodLiteral(t.head, name) && GoodHoles(t.holes, name)
    ensures Replace(Fill(t, fill), Placeholder(name), v) == Fill(t, Replaced(fill, name, v))
  {
    OnlyNameChars(name);
    ReplaceInHoles(t.holes, fill, name, v);
    ReplaceAcrossSeam(t.head, FillHoles(t.holes, fill), Placeholder(name), v);
    ReplaceAbsent(t.head, Placeholder(name), v);
  }

  function Sequentially(fill: string -> string, accounts: seq<Account>): string -> string {
    n => Sequential(fill(n), accounts)
  }

  lemma PeelAt(fill: string -> string, accounts: seq<Account>, n: string)
    requires accounts != []
    ensures Sequentially(Replaced(fill, accounts[0].name, Escape(accounts[0].password)), accounts[1..])(n)
         == Sequentially(fill, accounts)(n)
  {
    SequentialStep(fill(n), accounts);
  }

  lemma PeelAccount(t: Template, fill: string -> string, accounts: seq<Account>)
    requires accounts != []
    ensures Fill(t, Sequentially(Replaced(fill, accounts[0].name, Escape(accounts[0].password)), accounts[1..]))
         == Fill(t, Sequentially(fill, accounts))
  {
    var f := Sequentially(Replaced(fill, accounts[0].name, Escape(accounts[0].password)), accounts[1..]);
    var g := Sequentially(fill, accounts);
    forall i | 0 <= i < |t.holes| ensures f(t.holes[i].name) == g(t.holes[i].name) {
      PeelAt(fill, accounts, t.holes[i].name);
    }
    FillSame(t.holes, f, g);
  }

  lemma GoodRest(t: Template, accounts: seq<Account>)
    requires GoodTemplate(t, accounts) && accounts != []
    ensures PlainName(accounts[0].name) && GoodLiteral(t.head, accounts[0].name) && GoodHoles(t.holes, accounts[0].name)
    ensures GoodTemplate(t, accounts[1..])
  {
  }

  lemma NoAccounts(t: Template, fill: string -> string)
    ensures Fill(t, fill) == Fill(t, Sequentially(fill, []))
  {
    FillSame(t.holes, fill, Sequentially(fill, []));
  }

  lemma SequentialStep(s: string, accounts: seq<Account>)
    requires accounts != []
    ensures Sequential(s, accounts)
         == Sequential(Replace(s, Placeholder(accounts[0].name), Escape(accounts[0].password)), accounts[1..])
  {
  }

  lemma {:induction false} SequentialInTemplate(t: Template, fill: string -> string, accounts: seq<Account>)
    requires GoodTemplate(t, accounts)
    ensures Sequential(Fill(t, fill), accounts) == Fill(t, Sequentially(fill, accounts))
    decreases |accounts|
  {
    if accounts == [] {
      NoAccounts(t, fill);
    } else {
      var name, v := accounts[0].name, Escape(accounts[0].password);
      GoodRest(t, accounts);
      SequentialStep(Fill(t, fill), accounts);
      ReplaceInTemplate(t, fill, name, v);
      SequentialInTemplate(t, Replaced(fill, name, v), accounts[1..]);
      PeelAccount(t, fill, accounts);
    }
  }

  // ---------- what each hole ends up with ----------

  ghost predicate NamesDiffer(accounts: seq<Account>, name: string) {
    forall k :: 0 <= k < |accounts| ==> PlainName(accounts[k].name) && accounts[k].name != name
  }

  lemma {:induction false} OtherAccountsSkip(name: string, accounts: seq<Account>)
    requires PlainName(name) && NamesDiffer(accounts, name)
    ensures Sequential(Placeholder(name), accounts) == Placeholder(name)
  {
    if accounts != [] {
      PlaceholdersApart(name, accounts[0].name);
      ReplaceAbsent(Placeholder(name), Placeholder(accounts[0].name), Escape(accounts[0].password));
      OtherAccountsSkip(name, accounts[1..]);
    }
  }

  /** A hole gets its account's password, which the accounts after it may still change. */
  lemma {:induction false} HoleGets(accounts: seq<Account>, k: nat)
    requires k < |accounts| && PlainName(accounts[k].name) && NamesDiffer(accounts[..k], accounts[k].name)
    ensures Sequential(Placeholder(accounts[k].name), accounts)
         == Sequential(Escape(accounts[k].password), accounts[k + 1..])
  {
    if k == 0 {
      ReplaceWhole(Placeholder(accounts[0].name), Escape(accounts[0].password));
    } else {
      assert accounts[..k][0] == accounts[0];
      PlaceholdersApart(accounts[k].name, accounts[0].name);
      ReplaceAbsent(Placeholder(accounts[k].name), Placeholder(accounts[0].name), Escape(accounts[0].password));
      assert accounts[1..][..k - 1] == accounts[..k][1..];
      HoleGets(accounts[1..], k - 1);
      assert accounts[1..][k..] == accounts[k + 1..];
    }
  }

  // ---------- a password without placeholders is left alone ----------

  lemma {:induction false} EscapedPrefix(q: string, s: string)
    requires (forall i :: 0 <= i < |q| ==> NameChar(q[i])) && q <= Escape(s)
    ensures q <= s
  {
    if q != "" {
      if s != "" {
        EscapeHead(s);
        assert Escape(s)[0] == q[0];
        assert EscapedChar(s[0]) == [s[0]];
        assert q[1..] <= Escape(s[1..]) by {
          assert Escape(s)[1..] == Escape(s[1..]);
          assert q[1..] == Escape(s)[1..][..|q| - 1];
        }
        EscapedPrefix(q[1..], s[1..]);
      }
    }
  }

  /** An occurrence in an escaped password starts at its first character or within the rest's escape. */
  lemma OccursInEscape(password: string, p: string, i: nat)
    requires password != "" && p != "" && (forall k :: 0 <= k < |p| ==> NameChar(p[k]))
    requires OccursAt(Escape(password), p, i)
    ensures p <= password
            || (i >= |EscapedChar(password[0])| && OccursAt(Escape(password[1..]), p, i - |EscapedChar(password[0])|))
  {
    EscapeHead(password);
    var first, rest := EscapedChar(password[0]), Escape(password[1..]);
    if i >= |first| {
      assert rest[i - |first|..i - |first| + |p|] == (first + rest)[i..i + |p|];
    } else {
      assert (first + rest)[i] == p[0];
      assert i == 0;
      EscapedPrefix(p, password);
    }
  }

  /** Escaping a password never makes a placeholder appear in it. */
  lemma {:induction false} EscapeAddsNoPlaceholder(password: string, name: string)
    requires PlainName(name) && Contains(Escape(password), Placeholder(name))
    ensures Contains(password, Placeholder(name))
  {
    var p := Placeholder(name);
    OnlyNameChars(name);
    var i: nat :| OccursAt(Escape(password), p, i);
    if password != "" {
      OccursInEscape(password, p, i);
      if p <= password {
        assert OccursAt(password, p, 0);
      } else {
        EscapeAddsNoPlaceholder(password[1..], name);
        var j: nat :| OccursAt(password[1..], p, j);
        assert password[1..][j..j + |p|] == password[j + 1..j + 1 + |p|];
        assert OccursAt(password, p, j + 1);
      }
    }
  }

  /** No account's placeholder occurs in the text. */
  ghost predicate HoldsNone(text: string, accounts: seq<Account>) {
    forall j :: 0 <= j < |accounts| ==> !Contains(text, Placeholder(accounts[j].name))
  }

  lemma {:induction false} PlainValueStays(password: string, accounts: seq<Account>)
    requires AllPlain(accounts) && HoldsNone(password, accounts)
    ensures Sequential(Escape(password), accounts) == Escape(password)
  {
    if accounts != [] {
      if Contains(Escape(password), Placeholder(accounts[0].name)) {
        EscapeAddsNoPlaceholder(password, accounts[0].name);
      }
      ReplaceAbsent(Escape(password), Placeholder(accounts[0].name), Escape(accounts[0].password));
      PlainValueStays(password, accounts[1..]);
    }
  }

  // ---------- main results ----------

  ghost predicate DistinctNames(accounts: seq<Account>) {
    forall i, j :: 0 <= i < j < |accounts| ==> accounts[i].name != accounts[j].name
  }

  /** What a simultaneous fill puts in a hole: the account's escaped password, or the placeholder itself. */
  function Simultaneous(accounts: seq<Account>, name: string): string {
    if accounts == [] then Placeholder(name)
    else if accounts[0].name == name then Escape(accounts[0].password)
    else Simultaneous(accounts[1..], name)
  }

  lemma {:induction false} SimultaneousIs(accounts: seq<Account>, k: nat)
    requires DistinctNames(accounts) && k < |accounts|
    ensures Simultaneous(accounts, accounts[k].name) == Escape(accounts[k].password)
  {
    if k > 0 {
      SimultaneousIs(accounts[1..], k - 1);
    }
  }

  lemma {:induction false} SimultaneousMisses(accounts: seq<Account>, name: string)
    requires forall k :: 0 <= k < |accounts| ==> accounts[k].name != name
    ensures Simultaneous(accounts, name) == Placeholder(name)
  {
    if accounts != [] {
      SimultaneousMisses(accounts[1..], name);
    }
  }

  ghost predicate AllPlain(accounts: seq<Account>) {
    forall k :: 0 <= k < |accounts| ==> PlainName(accounts[k].name)
  }

  /** The account of this name, if there is one, has no placeholder of a later account in its password. */
  ghost predicate StaysPut(accounts: seq<Account>, name: string) {
    forall k :: 0 <= k < |accounts| && accounts[k].name == name ==> HoldsNone(accounts[k].password, accounts[k + 1..])
  }

  lemma HoleIsSimultaneous(accounts: seq<Account>, name: string)
    requires AllPlain(accounts) && DistinctNames(accounts) && PlainName(name) && StaysPut(accounts, name)
    ensures Sequential(Placeholder(name), accounts) == Simultaneous(accounts, name)
  {
    if k :| 0 <= k < |accounts| && accounts[k].name == name {
      HoleGets(accounts, k);
      PlainValueStays(accounts[k].password, accounts[k + 1..]);
      SimultaneousIs(accounts, k);
    } else {
      OtherAccountsSkip(name, accounts);
      SimultaneousMisses(accounts, name);
    }
  }

  ghost predicate PlainHoles(t: Template) {
    forall i :: 0 <= i < |t.holes| ==> PlainName(t.holes[i].name)
  }

  function AtOnce(accounts: seq<Account>): string -> string {
    n => Simultaneous(accounts, n)
  }

  /**
   Whatever the passwords, replacing one account after the other fills each hole on its own, with that
   hole's placeholder run through the accounts.
   */
  lemma SequentialIsPerHole(t: Template, accounts: seq<Account>)
    requires GoodTemplate(t, accounts)
    ensures Sequential(Source(t), accounts) == Fill(t, Sequentially(Placeholder, accounts))
  {
    SequentialInTemplate(t, Placeholder, accounts);
  }

  /** No account with a hole in the template has a later account's placeholder in its password. */
  ghost predicate NoLaterPlaceholders(t: Template, accounts: seq<Account>) {
    forall i :: 0 <= i < |t.holes| ==> StaysPut(accounts, t.holes[i].name)
  }

  /** When no password in use holds a later account's placeholder, the sequential fill is the simultaneous one. */
  lemma SequentialIsSimultaneous(t: Template, accounts: seq<Account>)
    requires GoodTemplate(t, accounts) && PlainHoles(t) && AllPlain(accounts)
    requires DistinctNames(accounts) && NoLaterPlaceholders(t, accounts)
    ensures Sequential(Source(t), accounts) == Fill(t, AtOnce(accounts))
  {
    SequentialIsPerHole(t, accounts);
    forall i | 0 <= i < |t.holes|
      ensures Sequentially(Placeholder, accounts)(t.holes[i].name) == AtOnce(accounts)(t.holes[i].name)
    {
      HoleIsSimultaneous(accounts, t.holes[i].name);
    }
    FillSame(t.holes, Sequentially(Placeholder, accounts), AtOnce(accounts));
  }

  /** The broker reads back each account's own password from the filled file. */
  lemma PasswordReadsBack(accounts: seq<Account>, k: nat, rest: string)
    requires DistinctNames(accounts) && k < |accounts| && rest != "" && rest[0] == '<'
    ensures ReadText(Simultaneous(accounts, accounts[k].name) + rest) == Some((accounts[k].password, rest))
  {
    SimultaneousIs(accounts, k);
    ReadEscaped(accounts[k].password, rest);
  }

  /** The same accounts, in any order. */
  ghost predicate SameAccounts(a: seq<Account>, b: seq<Account>) {
    forall x: Account :: x in a <==> x in b
  }

  lemma OrderDoesNotMatterAt(a: seq<Account>, b: seq<Account>, name: string)
    requires DistinctNames(a) && DistinctNames(b) && SameAccounts(a, b)
    ensures Simultaneous(a, name) == Simultaneous(b, name)
  {
    if k :| 0 <= k < |a| && a[k].name == name {
      assert a[k] in b;
      var j :| 0 <= j < |b| && b[j] == a[k];
      SimultaneousIs(a, k);
      SimultaneousIs(b, j);
    } else {
      forall j | 0 <= j < |b| ensures b[j].name != name {
        assert b[j] in a;
      }
      SimultaneousMisses(a, name);
      SimultaneousMisses(b, name);
    }
  }

  /** Then the order of the accounts does not matter. */
  lemma OrderDoesNotMatter(t: Template, a: seq<Account>, b: seq<Account>)
    requires GoodTemplate(t, a) && GoodTemplate(t, b) && PlainHoles(t) && AllPlain(a) && AllPlain(b)
    requires DistinctNames(a) && DistinctNames(b) && SameAccounts(a, b)
    requires NoLaterPlaceholders(t, a) && NoLaterPlaceholders(t, b)
    ensures Sequential(Source(t), a) == Sequential(Source(t), b)
  {
    SequentialIsSimultaneous(t, a);
    SequentialIsSimultaneous(t, b);
    forall i | 0 <= i < |t.holes| ensures AtOnce(a)(t.holes[i].name) == AtOnce(b)(t.holes[i].name) {
      OrderDoesNotMatterAt(a, b, t.holes[i].name);
    }
    FillSame(t.holes, AtOnce(a), AtOnce(b));
  }

  // ---------- the two fillers ----------

  /** The wizard's order. */
  function OnPrem(service: string, operator: string, viewer: string): seq<Account> {
    [Account("GATEWAY_PASSWORD", service), Account("OPERATOR_PASSWORD", operator), Account("VIEWER_PASSWORD", viewer),
     Account("DEVICE_API_PASSWORD", service), Account("TELEMETRY_WRITER_PASSWORD", service),
     Account("DER_CONTROL_API_PASSWORD", service)]
  }

  /** The cloud's order. */
  function Cloud(service: string, operator: string, viewer: string): seq<Account> {
    [Account("GATEWAY_PASSWORD", service), Account("DEVICE_API_PASSWORD", service),
     Account("TELEMETRY_WRITER_PASSWORD", service), Account("DER_CONTROL_API_PASSWORD", service),
     Account("OPERATOR_PASSWORD", operator), Account("VIEWER_PASSWORD", viewer)]
  }

  lemma GatewayAndOperatorArePlain()
    ensures PlainName("GATEWAY_PASSWORD") && PlainName("OPERATOR_PASSWORD") && PlainName("VIEWER_PASSWORD")
  {
  }

  lemma ServicesArePlain()
    ensures PlainName("DEVICE_API_PASSWORD") && PlainName("TELEMETRY_WRITER_PASSWORD")
    ensures PlainName("DER_CONTROL_API_PASSWORD")
  {
  }

  lemma NamesDifferByLength()
    ensures |"GATEWAY_PASSWORD"| == 16 && |"OPERATOR_PASSWORD"| == 17 && |"VIEWER_PASSWORD"| == 15
    ensures |"DEVICE_API_PASSWORD"| == 19 && |"TELEMETRY_WRITER_PASSWORD"| == 25 && |"DER_CONTROL_API_PASSWORD"| == 24
  {
  }

  lemma AccountsAreProper(service: string, operator: string, viewer: string)
    ensures AllPlain(OnPrem(service, operator, viewer)) && DistinctNames(OnPrem(service, operator, viewer))
    ensures AllPlain(Cloud(service, operator, viewer)) && DistinctNames(Cloud(service, operator, viewer))
  {
    GatewayAndOperatorArePlain();
    ServicesArePlain();
    NamesDifferByLength();
  }

  lemma AccountsAreTheSame(service: string, operator: string, viewer: string)
    ensures SameAccounts(OnPrem(service, operator, viewer), Cloud(service, operator, viewer))
  {
    var a, b := OnPrem(service, operator, viewer), Cloud(service, operator, viewer);
    assert a[0] == b[0] && a[1] == b[4] && a[2] == b[5] && a[3] == b[1] && a[4] == b[2] && a[5] == b[3];
  }

  /**
   For the same three passwords the cloud and the wizard write the same file, when neither order rewrites a
   password.
   */
  lemma CloudAndOnPremAgree(t: Template, service: string, operator: string, viewer: string)
    requires GoodTemplate(t, OnPrem(service, operator, viewer)) && PlainHoles(t)
    requires NoLaterPlaceholders(t, OnPrem(service, operator, viewer))
    requires NoLaterPlaceholders(t, Cloud(service, operator, viewer))
    ensures Sequential(Source(t), OnPrem(service, operator, viewer))
         == Sequential(Source(t), Cloud(service, operator, viewer))
  {
    var a, b := OnPrem(service, operator, viewer), Cloud(service, operator, viewer);
    AccountsAreProper(service, operator, viewer);
    AccountsAreTheSame(service, operator, viewer);
    GoodForBoth(t, a, b);
    OrderDoesNotMatter(t, a, b);
  }

  lemma GoodForBoth(t: Template, a: seq<Account>, b: seq<Account>)
    requires SameAccounts(a, b) && GoodTemplate(t, a)
    ensures GoodTemplate(t, b)
  {
    forall k | 0 <= k < |b|
      ensures PlainName(b[k].name) && GoodLiteral(t.head, b[k].name) && GoodHoles(t.holes, b[k].name)
    {
      assert b[k] in a;
      var i :| 0 <= i < |a| && a[i] == b[k];
    }
  }

  lemma {:induction false} EscapeOfPlain(s: string)
    requires forall i :: 0 <= i < |s| ==> s[i] != '&' && s[i] != '<' && s[i] != '>'
    ensures Escape(s) == s
  {
    if s != "" {
      EscapeHead(s);
      EscapeOfPlain(s[1..]);
      assert [s[0]] + s[1..] == s;
    }
  }
}
