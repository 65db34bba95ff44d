/** Passwords that hold an account's placeholder: exactly when one survives, and what the two fillers then write. */
module PlaceholderPasswords {
  import opened Text
  import opened Credentials

  // ---------- passwords the wizard accepts ----------

  predicate HasUpper(s: string) {
    exists i :: 0 <= i < |s| && 'A' <= s[i] <= 'Z'
  }

  predicate HasDigit(s: string) {
    exists i :: 0 <= i < |s| && '0' <= s[i] <= '9'
  }

  predicate HasSpecial(s: string) {
    exists i :: 0 <= i < |s| && !('A' <= s[i] <= 'Z' || 'a' <= s[i] <= 'z' || '0' <= s[i] <= '9')
  }

  /** The password policy, with ASCII digits. */
  predicate Accepted(s: string) {
    |s| >= 8 && HasUpper(s) && HasDigit(s) && HasSpecial(s)
  }

  const SHORT := "Aa1!aaaa"

  lemma ShortIsAccepted()
    ensures Accepted(SHORT) && |SHORT| == 8 && Escape(SHORT) == SHORT
  {
    assert SHORT[0] == 'A' && SHORT[2] == '1' && SHORT[3] == '!';
    EscapeOfPlain(SHORT);
  }

  // ---------- a placeholder in a password stays one in its escape ----------

  lemma {:induction false} PrefixEscapes(q: string, s: string)
    requires (forall i :: 0 <= i < |q| ==> NameChar(q[i])) && q <= s
    ensures q <= Escape(s)
  {
    if q != "" {
      EscapeHead(s);
      assert s[0] == q[0];
      PrefixEscapes(q[1..], s[1..]);
      assert q == [q[0]] + q[1..];
    }
  }

  lemma OccursLater(first: string, rest: string, p: string, j: nat)
    requires OccursAt(rest, p, j)
    ensures Contains(first + rest, p)
  {
    assert (first + rest)[|first| + j..|first| + j + |p|] == rest[j..j + |p|];
    assert OccursAt(first + rest, p, |first| + j);
  }

  lemma {:induction false} EscapeKeepsPlaceholder(password: string, name: string)
    requires PlainName(name) && Contains(password, Placeholder(name))
    ensures Contains(Escape(password), Placeholder(name))
  {
    var p := Placeholder(name);
    OnlyNameChars(name);
    var i: nat :| OccursAt(password, p, i);
    if i == 0 {
      PrefixEscapes(p, password);
      assert OccursAt(Escape(password), p, 0);
    } else {
      assert password[1..][i - 1..i - 1 + |p|] == password[i..i + |p|];
      assert OccursAt(password[1..], p, i - 1);
      EscapeKeepsPlaceholder(password[1..], name);
      var j: nat :| OccursAt(Escape(password[1..]), p, j);
      EscapeHead(password);
      OccursLater(EscapedChar(password[0]), Escape(password[1..]), p, j);
    }
  }

  lemma EscapeHoldsNone(password: string, accounts: seq<Account>)
    requires AllPlain(accounts)
    ensures HoldsNone(Escape(password), accounts) <==> HoldsNone(password, accounts)
  {
    forall j | 0 <= j < |accounts|
      ensures Contains(Escape(password), Placeholder(accounts[j].name))
              <==> Contains(password, Placeholder(accounts[j].name))
    {
      if Contains(password, Placeholder(accounts[j].name)) {
        EscapeKeepsPlaceholder(password, accounts[j].name);
      } else if Contains(Escape(password), Placeholder(accounts[j].name)) {
        EscapeAddsNoPlaceholder(password, accounts[j].name);
      }
    }
  }

  // ---------- what no placeholder has ----------

  /** How many characters of a text no placeholder has. */
  function Foreign(s: string): nat {
    if s == "" then 0 else (if NameChar(s[0]) then 0 else 1) + Foreign(s[1..])
  }

  lemma {:induction false} ForeignConcat(a: string, b: string)
    ensures Foreign(a + b) == Foreign(a) + Foreign(b)
  {
    if a == "" {
      assert a + b == b;
    } else {
      assert (a + b)[1..] == a[1..] + b;
      ForeignConcat(a[1..], b);
    }
  }

  /** Has a character that no placeholder has, as every accepted password does: its digit. */
  predicate Marked(s: string) {
    exists i :: 0 <= i < |s| && !NameChar(s[i])
  }

  lemma {:induction false} MarkedIsForeign(s: string)
    ensures Marked(s) <==> Foreign(s) > 0
  {
    if s != "" {
      MarkedIsForeign(s[1..]);
      if i :| 0 <= i < |s[1..]| && !NameChar(s[1..][i]) {
        assert !NameChar(s[i + 1]);
      }
      if i :| 0 < i < |s| && !NameChar(s[i]) {
        assert !NameChar(s[1..][i - 1]);
      }
    }
  }

  lemma AcceptedIsMarked(s: string)
    requires Accepted(s)
    ensures Marked(s)
  {
    var i :| 0 <= i < |s| && '0' <= s[i] <= '9';
  }

  lemma EscapedCharKeepsMark(c: char)
    ensures Foreign(EscapedChar(c)) >= if NameChar(c) then 0 else 1
  {
    assert Foreign(EscapedChar(c)) == (if NameChar(EscapedChar(c)[0]) then 0 else 1) + Foreign(EscapedChar(c)[1..]);
  }

  lemma {:induction false} EscapeKeepsMark(s: string)
    ensures Foreign(Escape(s)) >= Foreign(s)
  {
    if s != "" {
      EscapeHead(s);
      EscapedCharKeepsMark(s[0]);
      ForeignConcat(EscapedChar(s[0]), Escape(s[1..]));
      EscapeKeepsMark(s[1..]);
    }
  }

  lemma PlaceholderIsUnmarked(name: string)
    requires PlainName(name)
    ensures Foreign(Placeholder(name)) == 0
  {
    OnlyNameChars(name);
    MarkedIsForeign(Placeholder(name));
    assert forall i :: 0 <= i < |Placeholder(name)| ==> Placeholder(name)[i] in Placeholder(name);
  }

  /** Replacing an unmarked text by a marked one never lowers the count, and raises it where it finds something. */
  lemma {:induction false} ReplaceRaises(s: string, p: string, v: string)
    requires p != "" && Foreign(p) == 0 && Foreign(v) > 0
    ensures Foreign(Replace(s, p, v)) >= Foreign(s)
    ensures Contains(s, p) ==> Foreign(Replace(s, p, v)) > Foreign(s)
  {
    if |s| >= |p| {
      if p <= s {
        ReplaceRaises(s[|p|..], p, v);
        assert s == p + s[|p|..];
        ForeignConcat(p, s[|p|..]);
        ForeignConcat(v, Replace(s[|p|..], p, v));
      } else {
        ReplaceRaises(s[1..], p, v);
        ReplaceSkip(s, p, v);
        ForeignConcat([s[0]], Replace(s[1..], p, v));
        ForeignOfOne(s[0]);
        if Contains(s, p) {
          NotAtTheStart(s, p);
        }
      }
    }
  }

  lemma ForeignOfOne(c: char)
    ensures Foreign([c]) == if NameChar(c) then 0 else 1
  {
    assert [c][1..] == "";
  }

  lemma NotAtTheStart(s: string, p: string)
    requires s != "" && Contains(s, p) && !(p <= s)
    ensures Contains(s[1..], p)
  {
    var i: nat :| OccursAt(s, p, i);
    if i == 0 {
      OccursAtStart(s, p);
    } else {
      assert s[1..][i - 1..i - 1 + |p|] == s[i..i + |p|];
      assert OccursAt(s[1..], p, i - 1);
    }
  }

  lemma OccursAtStart(s: string, p: string)
    requires OccursAt(s, p, 0)
    ensures p <= s
  {
  }

  ghost predicate AllMarked(accounts: seq<Account>) {
    forall k :: 0 <= k < |accounts| ==> Marked(accounts[k].password)
  }

  lemma EscapeOfMarked(password: string)
    requires Marked(password)
    ensures Foreign(Escape(password)) > 0
  {
    MarkedIsForeign(password);
    EscapeKeepsMark(password);
  }

  /** Running a text through accounts never lowers its count, and raises it when the text holds a placeholder. */
  lemma {:induction false} SequentialRaises(s: string, accounts: seq<Account>)
    requires AllPlain(accounts) && AllMarked(accounts)
    ensures Foreign(Sequential(s, accounts)) >= Foreign(s)
    ensures !HoldsNone(s, accounts) ==> Foreign(Sequential(s, accounts)) > Foreign(s)
    decreases |accounts|
  {
    if accounts != [] {
      var p, v := Placeholder(accounts[0].name), Escape(accounts[0].password);
      SequentialStep(s, accounts);
      PlaceholderIsUnmarked(accounts[0].name);
      EscapeOfMarked(accounts[0].password);
      ReplaceRaises(s, p, v);
      SequentialRaises(Replace(s, p, v), accounts[1..]);
      if !HoldsNone(s, accounts) && !Contains(s, p) {
        ReplaceAbsent(s, p, v);
        var k :| 0 <= k < |accounts| && Contains(s, Placeholder(accounts[k].name));
        assert accounts[1..][k - 1] == accounts[k];
      }
    }
  }

  lemma {:induction false} NothingToReplace(s: string, accounts: seq<Account>)
    requires HoldsNone(s, accounts)
    ensures Sequential(s, accounts) == s
    decreases |accounts|
  {
    if accounts != [] {
      SequentialStep(s, accounts);
      ReplaceAbsent(s, Placeholder(accounts[0].name), Escape(accounts[0].password));
      NothingToReplace(s, accounts[1..]);
    }
  }

  // ---------- exactly when a password survives ----------

  /** A text comes out of some accounts as it went in exactly when it holds none of their placeholders. */
  lemma StaysIff(s: string, accounts: seq<Account>)
    requires AllPlain(accounts) && AllMarked(accounts)
    ensures Sequential(s, accounts) == s <==> HoldsNone(s, accounts)
  {
    if HoldsNone(s, accounts) {
      NothingToReplace(s, accounts);
    } else {
      SequentialRaises(s, accounts);
    }
  }

  function Accounts(names: seq<string>, passwords: seq<string>): (accounts: seq<Account>)
    requires |names| == |passwords|
    ensures |accounts| == |names|
    ensures forall k :: 0 <= k < |names| ==> accounts[k] == Account(names[k], passwords[k])
  {
    seq(|names|, k requires 0 <= k < |names| => Account(names[k], passwords[k]))
  }

  ghost predicate AllAccepted(passwords: seq<string>) {
    forall k :: 0 <= k < |passwords| ==> Accepted(passwords[k])
  }

  /** What stands in a password's hole stays itself, whatever accepted passwords the later accounts have. */
  ghost predicate Survives(password: string, names: seq<string>) {
    forall passwords: seq<string> :: |passwords| == |names| && AllAccepted(passwords) ==>
      Sequential(Escape(password), Accounts(names, passwords)) == Escape(password)
  }

  predicate AccountNames(names: seq<string>) {
    forall j :: 0 <= j < |names| ==> PlainName(names[j])
  }

  lemma SurvivesAt(password: string, names: seq<string>, passwords: seq<string>)
    requires AccountNames(names) && |passwords| == |names| && AllAccepted(passwords)
    ensures Sequential(Escape(password), Accounts(names, passwords)) == Escape(password)
            <==> forall j :: 0 <= j < |names| ==> !Contains(password, Placeholder(names[j]))
  {
    var accounts := Accounts(names, passwords);
    forall k | 0 <= k < |accounts| ensures Marked(accounts[k].password) {
      AcceptedIsMarked(passwords[k]);
    }
    StaysIff(Escape(password), accounts);
    EscapeHoldsNone(password, accounts);
    assert forall j :: 0 <= j < |names| ==> accounts[j].name == names[j];
  }

  /**
   A password survives every choice of the later accounts' passwords exactly when it holds none of their
   placeholders; and any one choice already decides it.
   */
  lemma SurvivesIff(password: string, names: seq<string>)
    requires AccountNames(names)
    ensures Survives(password, names) <==> forall j :: 0 <= j < |names| ==> !Contains(password, Placeholder(names[j]))
  {
    forall passwords: seq<string> | |passwords| == |names| && AllAccepted(passwords)
      ensures Sequential(Escape(password), Accounts(names, passwords)) == Escape(password)
              <==> forall j :: 0 <= j < |names| ==> !Contains(password, Placeholder(names[j]))
    {
      SurvivesAt(password, names, passwords);
    }
    ShortIsAccepted();
    var some: seq<string> := seq(|names|, _ => SHORT);
    assert |some| == |names| && AllAccepted(some);
  }

  // ---------- exactly when a whole file is filled as if at once ----------

  /** A hole's count after the sequential fill against the simultaneous one. */
  lemma HoleRaises(accounts: seq<Account>, name: string)
    requires AllPlain(accounts) && AllMarked(accounts) && DistinctNames(accounts) && PlainName(name)
    ensures Foreign(Sequential(Placeholder(name), accounts)) >= Foreign(Simultaneous(accounts, name))
    ensures !StaysPut(accounts, name) ==>
      Foreign(Sequential(Placeholder(name), accounts)) > Foreign(Simultaneous(accounts, name))
  {
    if k :| 0 <= k < |accounts| && accounts[k].name == name {
      HoleGets(accounts, k);
      SimultaneousIs(accounts, k);
      EscapeHoldsNone(accounts[k].password, accounts[k + 1..]);
      SequentialRaises(Escape(accounts[k].password), accounts[k + 1..]);
    } else {
      OtherAccountsSkip(name, accounts);
      SimultaneousMisses(accounts, name);
    }
  }

  ghost predicate RaisesAt(holes: seq<Hole>, f: string -> string, g: string -> string, i: nat)
    requires i < |holes|
  {
    Foreign(f(holes[i].name)) > Foreign(g(holes[i].name))
  }

  /** If no hole's count falls, the file's does not, and one that rises makes it rise. */
  lemma {:induction false} FillsRaise(holes: seq<Hole>, f: string -> string, g: string -> string)
    requires forall i :: 0 <= i < |holes| ==> Foreign(f(holes[i].name)) >= Foreign(g(holes[i].name))
    ensures Foreign(FillHoles(holes, f)) >= Foreign(FillHoles(holes, g))
    ensures (exists i: nat :: i < |holes| && RaisesAt(holes, f, g, i)) ==>
      Foreign(FillHoles(holes, f)) > Foreign(FillHoles(holes, g))
  {
    if holes != [] {
      var rest := holes[1..];
      FillsRaise(rest, f, g);
      HoleCounts(holes, f);
      HoleCounts(holes, g);
      if i: nat :| i < |holes| && RaisesAt(holes, f, g, i) {
        assert i > 0 ==> RaisesAt(rest, f, g, i - 1);
      }
    }
  }

  lemma HoleCounts(holes: seq<Hole>, f: string -> string)
    requires holes != []
    ensures Foreign(FillHoles(holes, f))
         == Foreign(f(holes[0].name)) + Foreign(holes[0].after) + Foreign(FillHoles(holes[1..], f))
  {
    ForeignConcat(f(holes[0].name), holes[0].after + FillHoles(holes[1..], f));
    ForeignConcat(holes[0].after, FillHoles(holes[1..], f));
  }

  /**
   Filling one account after the other gives the file a simultaneous fill gives exactly when no account
   with a hole in the template has a later account's placeholder in its password.
   */
  lemma SequentialIsSimultaneousIff(t: Template, accounts: seq<Account>)
    requires GoodTemplate(t, accounts) && PlainHoles(t) && AllPlain(accounts) && DistinctNames(accounts)
    requires AllMarked(accounts)
    ensures Sequential(Source(t), accounts) == Fill(t, AtOnce(accounts)) <==> NoLaterPlaceholders(t, accounts)
  {
    if NoLaterPlaceholders(t, accounts) {
      SequentialIsSimultaneous(t, accounts);
    } else {
      SequentialIsPerHole(t, accounts);
      var f, g := Sequentially(Placeholder, accounts), AtOnce(accounts);
      forall i | 0 <= i < |t.holes| ensures Foreign(f(t.holes[i].name)) >= Foreign(g(t.holes[i].name)) {
        HoleRaises(accounts, t.holes[i].name);
      }
      var i: nat :| i < |t.holes| && !StaysPut(accounts, t.holes[i].name);
      HoleRaises(accounts, t.holes[i].name);
      assert RaisesAt(t.holes, f, g, i);
      FillsRaise(t.holes, f, g);
      ForeignConcat(t.head, FillHoles(t.holes, f));
      ForeignConcat(t.head, FillHoles(t.holes, g));
    }
  }

  // ---------- what stands in the holes can be told from the file ----------

  /** The text after every hole starts a tag. */
  predicate TagHoles(holes: seq<Hole>) {
    forall i :: 0 <= i < |holes| ==> holes[i].after != "" && holes[i].after[0] == '<'
  }

  lemma {:induction false} EscapeHasNoTag(s: string)
    ensures '<' !in Escape(s)
  {
    if s != "" {
      EscapeHead(s);
      EscapeHasNoTag(s[1..]);
    }
  }

  lemma {:induction false} ReplaceAddsNoTag(s: string, p: string, v: string)
    requires p != "" && '<' !in s && '<' !in v
    ensures '<' !in Replace(s, p, v)
  {
    if |s| >= |p| {
      if p <= s {
        ReplaceAddsNoTag(s[|p|..], p, v);
      } else {
        ReplaceAddsNoTag(s[1..], p, v);
      }
    }
  }

  lemma {:induction false} SequentialAddsNoTag(s: string, accounts: seq<Account>)
    requires '<' !in s
    ensures '<' !in Sequential(s, accounts)
    decreases |accounts|
  {
    if accounts != [] {
      SequentialStep(s, accounts);
      EscapeHasNoTag(accounts[0].password);
      ReplaceAddsNoTag(s, Placeholder(accounts[0].name), Escape(accounts[0].password));
      SequentialAddsNoTag(Replace(s, Placeholder(accounts[0].name), Escape(accounts[0].password)), accounts[1..]);
    }
  }

  /** Two texts without a tag, each before the same tag: the whole tells them and what follows apart. */
  lemma UpToTag(a: string, b: string, after: string, x: string, y: string)
    requires '<' !in a && '<' !in b && after != "" && after[0] == '<'
    ensures a + (after + x) == b + (after + y) <==> a == b && x == y
  {
    var left, right := a + (after + x), b + (after + y);
    assert left[..|a|] == a && right[..|b|] == b;
    IndexOfIs(left, '<', |a|);
    IndexOfIs(right, '<', |b|);
    assert left[|a| + |after|..] == x && right[|b| + |after|..] == y;
  }

  ghost predicate FilledAlike(holes: seq<Hole>, f: string -> string, g: string -> string) {
    forall i :: 0 <= i < |holes| ==> f(holes[i].name) == g(holes[i].name)
  }

  lemma {:induction false} FillsAgreeIff(holes: seq<Hole>, f: string -> string, g: string -> string)
    requires TagHoles(holes)
    requires forall i :: 0 <= i < |holes| ==> '<' !in f(holes[i].name) && '<' !in g(holes[i].name)
    ensures FillHoles(holes, f) == FillHoles(holes, g) <==> FilledAlike(holes, f, g)
  {
    if holes != [] {
      var rest := holes[1..];
      FillsAgreeIff(rest, f, g);
      UpToTag(f(holes[0].name), g(holes[0].name), holes[0].after, FillHoles(rest, f), FillHoles(rest, g));
      assert FilledAlike(holes, f, g) <==> f(holes[0].name) == g(holes[0].name) && FilledAlike(rest, f, g) by {
        assert forall i :: 1 <= i < |holes| ==> holes[i] == rest[i - 1];
      }
    }
  }

  lemma SameHead(head: string, x: string, y: string)
    ensures head + x == head + y <==> x == y
  {
    if head + x == head + y {
      assert (head + x)[|head|..] == x && (head + y)[|head|..] == y;
    }
  }

  /** Two lists of accounts write the same file exactly when they fill every hole alike. */
  lemma SameFileIff(t: Template, a: seq<Account>, b: seq<Account>)
    requires GoodTemplate(t, a) && GoodTemplate(t, b) && PlainHoles(t) && TagHoles(t.holes)
    ensures Sequential(Source(t), a) == Sequential(Source(t), b)
            <==> FilledAlike(t.holes, Sequentially(Placeholder, a), Sequentially(Placeholder, b))
  {
    var f, g := Sequentially(Placeholder, a), Sequentially(Placeholder, b);
    SequentialIsPerHole(t, a);
    SequentialIsPerHole(t, b);
    forall i | 0 <= i < |t.holes| ensures '<' !in f(t.holes[i].name) && '<' !in g(t.holes[i].name) {
      OnlyNameChars(t.holes[i].name);
      SequentialAddsNoTag(Placeholder(t.holes[i].name), a);
      SequentialAddsNoTag(Placeholder(t.holes[i].name), b);
    }
    FillsAgreeIff(t.holes, f, g);
    SameHead(t.head, FillHoles(t.holes, f), FillHoles(t.holes, g));
  }

  // ---------- exactly when the cloud and the wizard write the same file ----------

  function People(operator: string, viewer: string): seq<Account> {
    [Account("OPERATOR_PASSWORD", operator), Account("VIEWER_PASSWORD", viewer)]
  }

  function Services(service: string): seq<Account> {
    [Account("DEVICE_API_PASSWORD", service), Account("TELEMETRY_WRITER_PASSWORD", service),
     Account("DER_CONTROL_API_PASSWORD", service)]
  }

  /**
   No hole, as it stands where the two orders part, holds a placeholder one order has yet to replace: the
   services' in the viewer's password and in the operator's after the viewer's account, the people's in the
   service password after any of the last services.
   */
  ghost predicate OrdersAgree(service: string, operator: string, viewer: string) {
    && HoldsNone(viewer, Services(service))
    && HoldsNone(Sequential(Escape(operator), People(operator, viewer)[1..]), Services(service))
    && (forall i: nat :: i <= 3 ==> ServiceStays(service, operator, viewer, i))
  }

  ghost predicate ServiceStays(service: string, operator: string, viewer: string, i: nat)
    requires i <= 3
  {
    HoldsNone(Sequential(Escape(service), Services(service)[i..]), People(operator, viewer))
  }

  lemma {:induction false} SequentialConcat(s: string, a: seq<Account>, b: seq<Account>)
    ensures Sequential(s, a + b) == Sequential(Sequential(s, a), b)
    decreases |a|
  {
    if a == [] {
      assert a + b == b;
    } else {
      assert (a + b)[1..] == a[1..] + b && (a + b)[0] == a[0];
      SequentialStep(s, a + b);
      SequentialStep(s, a);
      SequentialConcat(Replace(s, Placeholder(a[0].name), Escape(a[0].password)), a[1..], b);
    }
  }

  lemma ListsAreProper(service: string, operator: string, viewer: string)
    requires Marked(service) && Marked(operator) && Marked(viewer)
    ensures AllPlain(People(operator, viewer)) && AllMarked(People(operator, viewer))
    ensures AllPlain(Services(service)) && AllMarked(Services(service))
  {
    GatewayAndOperatorArePlain();
    ServicesArePlain();
  }

  /** The accounts the wizard's order still has to fill after the k-th. */
  function OnPremRest(service: string, operator: string, viewer: string, k: nat): seq<Account>
    requires k < 6
  {
    var people, services := People(operator, viewer), Services(service);
    if k == 0 then people + services else if k <= 2 then people[k..] + services else services[k - 2..]
  }

  /** The cloud has its people last. */
  function CloudRest(service: string, operator: string, viewer: string, k: nat): seq<Account>
    requires k < 6
  {
    var people, services := People(operator, viewer), Services(service);
    if k <= 3 then services[k..] + people else people[k - 3..]
  }

  lemma TailOf(x: Account, a: seq<Account>, b: seq<Account>, k: nat)
    requires k <= |a| + |b|
    ensures ([x] + a + b)[k + 1..] == if k <= |a| then a[k..] + b else b[k - |a|..]
  {
  }

  lemma OnPremRestIs(service: string, operator: string, viewer: string, k: nat)
    requires k < 6
    ensures OnPrem(service, operator, viewer)[k + 1..] == OnPremRest(service, operator, viewer, k)
  {
    var people, services := People(operator, viewer), Services(service);
    var first := Account("GATEWAY_PASSWORD", service);
    assert OnPrem(service, operator, viewer) == [first] + people + services;
    TailOf(first, people, services, k);
    assert people[0..] == people;
  }

  lemma CloudRestIs(service: string, operator: string, viewer: string, k: nat)
    requires k < 6
    ensures Cloud(service, operator, viewer)[k + 1..] == CloudRest(service, operator, viewer, k)
  {
    var people, services := People(operator, viewer), Services(service);
    var first := Account("GATEWAY_PASSWORD", service);
    assert Cloud(service, operator, viewer) == [first] + services + people;
    TailOf(first, services, people, k);
  }

  /** What the wizard's order leaves in each account's hole. */
  lemma OnPremHole(service: string, operator: string, viewer: string, k: nat)
    requires k < 6
    ensures var accounts := OnPrem(service, operator, viewer);
            Sequential(Placeholder(accounts[k].name), accounts)
            == Sequential(Escape(accounts[k].password), OnPremRest(service, operator, viewer, k))
  {
    AccountsAreProper(service, operator, viewer);
    HoleGets(OnPrem(service, operator, viewer), k);
    OnPremRestIs(service, operator, viewer, k);
  }

  /** What the cloud's order leaves there. */
  lemma CloudHole(service: string, operator: string, viewer: string, k: nat)
    requires k < 6
    ensures var accounts := Cloud(service, operator, viewer);
            Sequential(Placeholder(accounts[k].name), accounts)
            == Sequential(Escape(accounts[k].password), CloudRest(service, operator, viewer, k))
  {
    AccountsAreProper(service, operator, viewer);
    HoleGets(Cloud(service, operator, viewer), k);
    CloudRestIs(service, operator, viewer, k);
  }

  ghost predicate HoleAlike(service: string, operator: string, viewer: string, name: string) {
    Sequential(Placeholder(name), OnPrem(service, operator, viewer))
    == Sequential(Placeholder(name), Cloud(service, operator, viewer))
  }

  lemma ViewerHoleIff(service: string, operator: string, viewer: string)
    requires Marked(service) && Marked(operator) && Marked(viewer)
    ensures HoleAlike(service, operator, viewer, "VIEWER_PASSWORD") <==> HoldsNone(viewer, Services(service))
  {
    ListsAreProper(service, operator, viewer);
    OnPremHole(service, operator, viewer, 2);
    CloudHole(service, operator, viewer, 5);
    assert People(operator, viewer)[2..] + Services(service) == Services(service);
    assert People(operator, viewer)[2..] == [];
    StaysIff(Escape(viewer), Services(service));
    EscapeHoldsNone(viewer, Services(service));
  }

  lemma OperatorHoleIff(service: string, operator: string, viewer: string)
    requires Marked(service) && Marked(operator) && Marked(viewer)
    ensures HoleAlike(service, operator, viewer, "OPERATOR_PASSWORD")
            <==> HoldsNone(Sequential(Escape(operator), People(operator, viewer)[1..]), Services(service))
  {
    var later := People(operator, viewer)[1..];
    ListsAreProper(service, operator, viewer);
    OnPremHole(service, operator, viewer, 1);
    CloudHole(service, operator, viewer, 4);
    SequentialConcat(Escape(operator), later, Services(service));
    StaysIff(Sequential(Escape(operator), later), Services(service));
  }

  lemma ServiceHoleIff(service: string, operator: string, viewer: string, i: nat)
    requires Marked(service) && Marked(operator) && Marked(viewer) && 1 <= i <= 3
    ensures HoleAlike(service, operator, viewer, Services(service)[i - 1].name)
            <==> ServiceStays(service, operator, viewer, i)
  {
    var services := Services(service);
    ListsAreProper(service, operator, viewer);
    OnPremHole(service, operator, viewer, i + 2);
    CloudHole(service, operator, viewer, i);
    SequentialConcat(Escape(service), services[i..], People(operator, viewer));
    StaysIff(Sequential(Escape(service), services[i..]), People(operator, viewer));
  }

  /** The gateway's hole sees both lists whole; once the last service's hole is alike, it parts like the others. */
  lemma GatewayHoleIff(service: string, operator: string, viewer: string)
    requires Marked(service) && Marked(operator) && Marked(viewer) && ServiceStays(service, operator, viewer, 3)
    ensures HoleAlike(service, operator, viewer, "GATEWAY_PASSWORD") <==> ServiceStays(service, operator, viewer, 0)
  {
    var people, services := People(operator, viewer), Services(service);
    ListsAreProper(service, operator, viewer);
    OnPremHole(service, operator, viewer, 0);
    CloudHole(service, operator, viewer, 0);
    assert services[3..] == [] && services[0..] == services;
    SequentialConcat(Escape(service), people, services);
    SequentialConcat(Escape(service), services, people);
    NothingToReplace(Escape(service), people);
    StaysIff(Sequential(Escape(service), services), people);
  }

  /** Every account has its hole, as in the shipped template. */
  ghost predicate AllHoles(t: Template) {
    forall k :: 0 <= k < 6 ==> exists i :: 0 <= i < |t.holes| && t.holes[i].name == OnPrem("", "", "")[k].name
  }

  /** The six holes of the accounts are filled alike in both orders. */
  ghost predicate AccountsAlike(service: string, operator: string, viewer: string) {
    forall k :: 0 <= k < 6 ==> HoleAlike(service, operator, viewer, OnPrem("", "", "")[k].name)
  }

  lemma AccountsAlikeIff(service: string, operator: string, viewer: string)
    requires Marked(service) && Marked(operator) && Marked(viewer)
    ensures AccountsAlike(service, operator, viewer) <==> OrdersAgree(service, operator, viewer)
  {
    ViewerHoleIff(service, operator, viewer);
    OperatorHoleIff(service, operator, viewer);
    forall i | 1 <= i <= 3
      ensures HoleAlike(service, operator, viewer, OnPrem("", "", "")[i + 2].name)
              <==> ServiceStays(service, operator, viewer, i)
    {
      ServiceHoleIff(service, operator, viewer, i);
    }
    if ServiceStays(service, operator, viewer, 3) {
      GatewayHoleIff(service, operator, viewer);
    }
    AlikeByAccount(service, operator, viewer);
    AgreeByCase(service, operator, viewer);
  }

  lemma AlikeByAccount(service: string, operator: string, viewer: string)
    ensures AccountsAlike(service, operator, viewer) <==>
      && HoleAlike(service, operator, viewer, "GATEWAY_PASSWORD")
      && HoleAlike(service, operator, viewer, "OPERATOR_PASSWORD")
      && HoleAlike(service, operator, viewer, "VIEWER_PASSWORD")
      && HoleAlike(service, operator, viewer, OnPrem("", "", "")[3].name)
      && HoleAlike(service, operator, viewer, OnPrem("", "", "")[4].name)
      && HoleAlike(service, operator, viewer, OnPrem("", "", "")[5].name)
  {
    assert OnPrem("", "", "")[0].name == "GATEWAY_PASSWORD" && OnPrem("", "", "")[1].name == "OPERATOR_PASSWORD";
    assert OnPrem("", "", "")[2].name == "VIEWER_PASSWORD";
  }

  lemma AgreeByCase(service: string, operator: string, viewer: string)
    ensures (forall i: nat :: i <= 3 ==> ServiceStays(service, operator, viewer, i)) <==>
      && ServiceStays(service, operator, viewer, 0) && ServiceStays(service, operator, viewer, 1)
      && ServiceStays(service, operator, viewer, 2) && ServiceStays(service, operator, viewer, 3)
  {
  }

  lemma OtherHoleAlike(service: string, operator: string, viewer: string, name: string)
    requires PlainName(name) && forall k :: 0 <= k < 6 ==> name != OnPrem("", "", "")[k].name
    ensures HoleAlike(service, operator, viewer, name)
  {
    var a, b := OnPrem(service, operator, viewer), Cloud(service, operator, viewer);
    AccountsAreProper(service, operator, viewer);
    AccountsAreTheSame(service, operator, viewer);
    assert forall k :: 0 <= k < 6 ==> a[k].name == OnPrem("", "", "")[k].name;
    forall j | 0 <= j < |b| ensures b[j].name != name {
      assert b[j] in a;
    }
    OtherAccountsSkip(name, a);
    OtherAccountsSkip(name, b);
  }

  /** For the same three passwords the cloud and the wizard write the same file exactly when the orders agree. */
  lemma CloudAndOnPremAgreeIff(t: Template, service: string, operator: string, viewer: string)
    requires GoodTemplate(t, OnPrem(service, operator, viewer)) && PlainHoles(t) && TagHoles(t.holes) && AllHoles(t)
    requires Marked(service) && Marked(operator) && Marked(viewer)
    ensures var wizard := Sequential(Source(t), OnPrem(service, operator, viewer));
            var cloud := Sequential(Source(t), Cloud(service, operator, viewer));
            wizard == cloud <==> OrdersAgree(service, operator, viewer)
  {
    var a, b := OnPrem(service, operator, viewer), Cloud(service, operator, viewer);
    AccountsAreTheSame(service, operator, viewer);
    GoodForBoth(t, a, b);
    SameFileIff(t, a, b);
    AccountsAlikeIff(service, operator, viewer);
    var f, g := Sequentially(Placeholder, a), Sequentially(Placeholder, b);
    if AccountsAlike(service, operator, viewer) {
      forall i | 0 <= i < |t.holes| ensures f(t.holes[i].name) == g(t.holes[i].name) {
        if !exists k :: 0 <= k < 6 && t.holes[i].name == OnPrem("", "", "")[k].name {
          OtherHoleAlike(service, operator, viewer, t.holes[i].name);
        }
      }
    }
    if FilledAlike(t.holes, f, g) {
      forall k | 0 <= k < 6 ensures HoleAlike(service, operator, viewer, OnPrem("", "", "")[k].name) {
        var i :| 0 <= i < |t.holes| && t.holes[i].name == OnPrem("", "", "")[k].name;
        assert f(t.holes[i].name) == g(t.holes[i].name);
      }
    }
  }

  // ---------- an operator password the wizard accepts ----------

  function Tricky(name: string): string {
    "1" + Placeholder(name)
  }

  lemma TrickyIsAccepted(name: string)
    requires PlainName(name) && |name| > 4
    ensures Accepted(Tricky(name)) && Escape(Tricky(name)) == Tricky(name)
  {
    var s := Tricky(name);
    OnlyNameChars(name);
    assert s[0] == '1' && s[1] == '_' && s[3] == name[0];
    assert forall i :: 1 <= i < |s| ==> s[i] == Placeholder(name)[i - 1];
    EscapeOfPlain(s);
  }

  /** Another account's replace leaves it alone. */
  lemma TrickyStays(name: string, account: Account)
    requires PlainName(name) && PlainName(account.name) && account.name != name
    ensures Replace(Tricky(name), Placeholder(account.name), Escape(account.password)) == Tricky(name)
  {
    var p, v := Placeholder(account.name), Escape(account.password);
    assert p[0] == '_' && Tricky(name)[1..] == Placeholder(name);
    ReplaceSkip(Tricky(name), p, v);
    PlaceholdersApart(name, account.name);
    ReplaceAbsent(Placeholder(name), p, v);
  }

  /**
   The operator password "1__DEVICE_API_PASSWORD__" meets the policy; whatever the service and the viewer
   chose, the wizard and the cloud then write different files from one template.
   */
  lemma OrdersPart(t: Template, service: string, viewer: string)
    requires Accepted(service) && Accepted(viewer)
    requires GoodTemplate(t, OnPrem(service, Tricky("DEVICE_API_PASSWORD"), viewer)) && PlainHoles(t)
    requires TagHoles(t.holes) && AllHoles(t)
    ensures Accepted(Tricky("DEVICE_API_PASSWORD"))
    ensures Sequential(Source(t), OnPrem(service, Tricky("DEVICE_API_PASSWORD"), viewer))
         != Sequential(Source(t), Cloud(service, Tricky("DEVICE_API_PASSWORD"), viewer))
  {
    var name := "DEVICE_API_PASSWORD";
    var operator := Tricky(name);
    ServicesArePlain();
    TrickyIsAccepted(name);
    AcceptedIsMarked(service);
    AcceptedIsMarked(operator);
    AcceptedIsMarked(viewer);
    TrickyDisagrees(service, viewer);
    CloudAndOnPremAgreeIff(t, service, operator, viewer);
  }

  lemma TrickyDisagrees(service: string, viewer: string)
    ensures !OrdersAgree(service, Tricky("DEVICE_API_PASSWORD"), viewer)
  {
    var later := People(Tricky("DEVICE_API_PASSWORD"), viewer)[1..];
    ServicesArePlain();
    GatewayAndOperatorArePlain();
    NamesDifferByLength();
    assert later == [Account("VIEWER_PASSWORD", viewer)];
    TrickyAfter("DEVICE_API_PASSWORD", later[0]);
    assert Services(service)[0].name == "DEVICE_API_PASSWORD";
  }

  /** It comes out of another account's turn still holding its placeholder. */
  lemma TrickyAfter(name: string, account: Account)
    requires PlainName(name) && |name| > 4 && PlainName(account.name) && account.name != name
    ensures Contains(Sequential(Escape(Tricky(name)), [account]), Placeholder(name))
  {
    TrickyIsAccepted(name);
    TrickyStays(name, account);
    assert [account][1..] == [];
    SequentialStep(Tricky(name), [account]);
    assert Tricky(name)[1..1 + |Placeholder(name)|] == Placeholder(name);
    assert OccursAt(Tricky(name), Placeholder(name), 1);
  }
}
