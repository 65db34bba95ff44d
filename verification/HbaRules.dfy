/**
 The pg_hba check: each host rule's netmask becomes a prefix length by counting its bits, and every rule
 must be loopback or exactly Docker's network (section 3.1 of RFC 4632). Addresses are their integers.
 */
module HbaRules {

  // ---------- bits ----------

  function Ones(k: nat): nat {
    if k == 0 then 0 else 2 * Ones(k - 1) + 1
  }

  /** `a & b` on `w` bits. */
  function And(w: nat, a: nat, b: nat): nat {
    if w == 0 then 0 else 2 * And(w - 1, a / 2, b / 2) + (a % 2) * (b % 2)
  }

  /** `bin(m).count("1")`. */
  function PopCount(w: nat, m: nat): nat {
    if w == 0 then 0 else m % 2 + PopCount(w - 1, m / 2)
  }

  /** `x >> k`. */
  function Shift(x: nat, k: nat): nat {
    if k == 0 then x else Shift(x / 2, k - 1)
  }

  /** `y << k`. */
  function ShiftLeft(y: nat, k: nat): nat {
    if k == 0 then y else 2 * ShiftLeft(y, k - 1)
  }

  /** A contiguous netmask: `p` ones, then zeros. */
  function Mask(w: nat, p: nat): nat
    requires p <= w
  {
    if p == w then Ones(w) else 2 * Mask(w - 1, p)
  }

  predicate Contiguous(w: nat, m: nat) {
    exists p: nat :: p <= w && m == Mask(w, p)
  }

  lemma {:induction false} PopCountBounds(w: nat, m: nat)
    requires m <= Ones(w)
    ensures PopCount(w, m) <= w && (PopCount(w, m) == w ==> m == Ones(w))
  {
    if w > 0 {
      PopCountBounds(w - 1, m / 2);
    }
  }

  lemma {:induction false} MaskCounts(w: nat, p: nat)
    requires p <= w
    ensures PopCount(w, Mask(w, p)) == p && Mask(w, p) <= Ones(w)
  {
    if p == w {
      OnesCount(w);
    } else {
      MaskCounts(w - 1, p);
    }
  }

  lemma {:induction false} OnesCount(w: nat)
    ensures PopCount(w, Ones(w)) == w
  {
    if w > 0 {
      OnesCount(w - 1);
    }
  }

  lemma {:induction false} AndOnes(w: nat, x: nat)
    requires x <= Ones(w)
    ensures And(w, x, Ones(w)) == x
  {
    if w > 0 {
      AndOnes(w - 1, x / 2);
    }
  }

  lemma LeftOfHalf(x: nat, k: nat)
    requires k > 0
    ensures ShiftLeft(Shift(x, k), k) == 2 * ShiftLeft(Shift(x / 2, k - 1), k - 1)
  {
  }

  lemma AndEven(w: nat, x: nat, m: nat)
    requires w > 0
    ensures And(w, x, 2 * m) == 2 * And(w - 1, x / 2, m)
  {
    var twice := 2 * m;
    assert twice / 2 == m && twice % 2 == 0;
    assert And(w, x, twice) == 2 * And(w - 1, x / 2, twice / 2) + (x % 2) * (twice % 2);
  }

  /** Under a contiguous mask an address keeps its first `p` bits. */
  lemma {:induction false} AndMask(w: nat, p: nat, x: nat)
    requires p <= w && x <= Ones(w)
    ensures And(w, x, Mask(w, p)) == ShiftLeft(Shift(x, w - p), w - p)
  {
    if p == w {
      AndOnes(w, x);
    } else {
      AndMask(w - 1, p, x / 2);
      AndEven(w, x, Mask(w - 1, p));
      LeftOfHalf(x, w - p);
    }
  }

  lemma {:induction false} ShiftOfLeft(y: nat, k: nat)
    ensures Shift(ShiftLeft(y, k), k) == y
  {
    if k > 0 {
      ShiftOfLeft(y, k - 1);
    }
  }

  /** An address is its first bits followed by the rest. */
  lemma {:induction false} SplitBits(x: nat, k: nat)
    ensures ShiftLeft(Shift(x, k), k) <= x <= ShiftLeft(Shift(x, k), k) + Ones(k)
  {
    if k > 0 {
      SplitBits(x / 2, k - 1);
    }
  }

  lemma {:induction false} ShiftMonotone(a: nat, b: nat, k: nat)
    requires a <= b
    ensures Shift(a, k) <= Shift(b, k)
  {
    if k > 0 {
      ShiftMonotone(a / 2, b / 2, k - 1);
    }
  }

  // ---------- when counting bits is right ----------

  /** `x` matches the rule the way PostgreSQL does it. */
  predicate Matches(w: nat, address: nat, mask: nat, x: nat) {
    And(w, x, mask) == And(w, address, mask)
  }

  /** The two addresses share their first `p` bits. */
  predicate SamePrefix(w: nat, p: nat, address: nat, x: nat)
    requires p <= w
  {
    Shift(x, w - p) == Shift(address, w - p)
  }

  /** The network with the counted prefix is exactly what the rule admits. */
  ghost predicate CountingIsRight(w: nat, mask: nat)
    requires PopCount(w, mask) <= w
  {
    forall address: nat, x: nat :: address <= Ones(w) && x <= Ones(w) ==>
      (Matches(w, address, mask, x) <==> SamePrefix(w, PopCount(w, mask), address, x))
  }

  lemma MaskedNetwork(w: nat, p: nat, address: nat, x: nat)
    requires p <= w && address <= Ones(w) && x <= Ones(w)
    ensures Matches(w, address, Mask(w, p), x) <==> SamePrefix(w, p, address, x)
  {
    AndMask(w, p, x);
    AndMask(w, p, address);
    ShiftOfLeft(Shift(x, w - p), w - p);
    ShiftOfLeft(Shift(address, w - p), w - p);
  }

  lemma {:induction false} AndZero(w: nat, m: nat)
    ensures And(w, 0, m) == 0
  {
    if w > 0 {
      AndZero(w - 1, m / 2);
    }
  }

  lemma {:induction false} ShiftZero(k: nat)
    ensures Shift(0, k) == 0
  {
    if k > 0 {
      ShiftZero(k - 1);
    }
  }

  /** A mask that is not contiguous has a one among its low bits; that bit alone tells the two apart. */
  lemma {:induction false} StrayBit(w: nat, m: nat) returns (x: nat)
    requires m <= Ones(w) && PopCount(w, m) <= w && m != Mask(w, PopCount(w, m))
    ensures x <= Ones(w) && And(w, x, m) != 0 && Shift(x, w - PopCount(w, m)) == 0
  {
    var p := PopCount(w, m);
    PopCountBounds(w, m);
    assert p < w;
    if m % 2 == 1 {
      x := 1;
      ShiftZero(w - p - 1);
      assert Ones(w) >= 1;
    } else {
      PopCountBounds(w - 1, m / 2);
      assert Mask(w, p) == 2 * Mask(w - 1, p);
      var y := StrayBit(w - 1, m / 2);
      x := 2 * y;
    }
  }

  /** Counting the mask's bits gives the rule's own network exactly when the mask is contiguous. */
  lemma CountingIsRightIff(w: nat, mask: nat)
    requires mask <= Ones(w)
    ensures PopCount(w, mask) <= w
    ensures CountingIsRight(w, mask) <==> Contiguous(w, mask)
  {
    var p := PopCount(w, mask);
    PopCountBounds(w, mask);
    if q: nat :| q <= w && mask == Mask(w, q) {
      MaskCounts(w, q);
      forall address: nat, x: nat | address <= Ones(w) && x <= Ones(w)
        ensures Matches(w, address, mask, x) <==> SamePrefix(w, p, address, x)
      {
        MaskedNetwork(w, q, address, x);
      }
    } else {
      assert mask != Mask(w, p);
      var x := StrayBit(w, mask);
      AndZero(w, mask);
      ShiftZero(w - p);
      assert !Matches(w, 0, mask, x) && SamePrefix(w, p, 0, x);
    }
  }

  // ---------- rules and networks ----------

  datatype Family = V4 | V6

  function Width(f: Family): nat {
    if f.V4? then 32 else 128
  }

  /** A host rule: a keyword such as "all" or "samenet", or an address with its netmask. */
  datatype Rule = Keyword(word: string) | Range(family: Family, address: nat, mask: nat)

  /** `ip_network(f"{address}/{prefix}", strict=False)`. */
  datatype Net = Net(family: Family, address: nat, prefix: nat)

  predicate IsAddress(f: Family, x: nat) {
    x <= Ones(Width(f))
  }

  predicate ProperRule(r: Rule) {
    r.Range? ==> IsAddress(r.family, r.address) && r.mask <= Ones(Width(r.family))
  }

  function NetOf(r: Rule): Net
    requires r.Range?
  {
    var p := PopCount(Width(r.family), r.mask);
    var k := if p <= Width(r.family) then Width(r.family) - p else 0;
    Net(r.family, ShiftLeft(Shift(r.address, k), k), p)
  }

  predicate InNet(net: Net, f: Family, x: nat) {
    f == net.family && net.prefix <= Width(f) && SamePrefix(Width(f), net.prefix, net.address, x)
  }

  /** Python 3.13's `is_loopback`: 127.0.0.0/8, ::1, and 127.0.0.0/8 mapped into IPv6. */
  predicate IsLoopback(f: Family, x: nat) {
    match f
    case V4 => Shift(x, 24) == 127
    case V6 => x == 1 || Shift(x, 24) == 0xffff7f
  }

  function Broadcast(net: Net): nat {
    if net.prefix <= Width(net.family) then net.address + Ones(Width(net.family) - net.prefix) else net.address
  }

  /** A network is loopback when its first and last addresses are. */
  predicate IsLoopbackNet(net: Net) {
    IsLoopback(net.family, net.address) && IsLoopback(net.family, Broadcast(net))
  }

  /** What PostgreSQL admits; what a keyword admits is left open. */
  ghost predicate Admits(keyword: (string, Family, nat) -> bool, r: Rule, f: Family, x: nat) {
    match r
    case Keyword(word) => keyword(word, f, x)
    case Range(family, address, mask) => f == family && Matches(Width(f), address, mask, x)
  }

  ghost predicate AnyAdmits(keyword: (string, Family, nat) -> bool, rules: seq<Rule>, f: Family, x: nat) {
    exists i :: 0 <= i < |rules| && Admits(keyword, rules[i], f, x)
  }

  // ---------- the check ----------

  predicate Inside(r: Rule, subnet: Net) {
    r.Range? && (IsLoopbackNet(NetOf(r)) || NetOf(r) == subnet)
  }

  /** What `_hba` accepts. */
  predicate HbaOk(rules: seq<Rule>, subnet: Net) {
    && (exists i :: 0 <= i < |rules| && rules[i].Range? && NetOf(rules[i]) == subnet)
    && (forall i :: 0 <= i < |rules| ==> Inside(rules[i], subnet))
  }

  method CheckHba(rules: seq<Rule>, subnet: Net) returns (ok: bool)
    ensures ok <==> HbaOk(rules, subnet)
  {
    var seen: set<Rule>, nets: seq<Net>, outside: seq<Rule> := {}, [], [];
    for i := 0 to |rules|
      invariant forall j :: 0 <= j < i ==> rules[j] in seen
      invariant forall r :: r in seen ==> r in rules[..i]
      invariant subnet in nets <==> exists j :: 0 <= j < i && rules[j].Range? && NetOf(rules[j]) == subnet
      invariant outside == [] <==> forall j :: 0 <= j < i ==> Inside(rules[j], subnet)
    {
      var rule := rules[i];
      if rule !in seen {
        seen := seen + {rule};
        if rule.Keyword? {
          outside := outside + [rule];
        } else {
          var net := NetOf(rule);
          nets := nets + [net];
          if !(IsLoopbackNet(net) || net == subnet) {
            outside := outside + [rule];
          }
        }
      } else {
        ghost var j :| 0 <= j < i && rules[j] == rule;
      }
    }
    ok := subnet in nets && outside == [];
  }

  // ---------- what a passing check means ----------

  ghost predicate ProperRules(rules: seq<Rule>) {
    forall i :: 0 <= i < |rules| ==>
      ProperRule(rules[i]) && (rules[i].Range? ==> Contiguous(Width(rules[i].family), rules[i].mask))
  }

  lemma NetIs(r: Rule, p: nat)
    requires r.Range? && p <= Width(r.family) && r.mask == Mask(Width(r.family), p)
    ensures var k := Width(r.family) - p; NetOf(r) == Net(r.family, ShiftLeft(Shift(r.address, k), k), p)
  {
    MaskCounts(Width(r.family), p);
  }

  lemma PrefixIsItsNet(r: Rule, p: nat, x: nat)
    requires r.Range? && p <= Width(r.family) && r.mask == Mask(Width(r.family), p)
    requires IsAddress(r.family, r.address) && IsAddress(r.family, x)
    ensures Matches(Width(r.family), r.address, r.mask, x) <==> InNet(NetOf(r), r.family, x)
  {
    var w := Width(r.family);
    NetIs(r, p);
    MaskedNetwork(w, p, r.address, x);
    NetPrefix(r.address, x, w - p);
  }

  /** A rule with a contiguous mask admits exactly its network. */
  lemma RuleIsItsNet(keyword: (string, Family, nat) -> bool, r: Rule, f: Family, x: nat)
    requires r.Range? && ProperRule(r) && Contiguous(Width(r.family), r.mask) && IsAddress(f, x)
    ensures Admits(keyword, r, f, x) <==> InNet(NetOf(r), f, x)
  {
    var p: nat :| p <= Width(r.family) && r.mask == Mask(Width(r.family), p);
    if f == r.family {
      PrefixIsItsNet(r, p, x);
    }
  }

  lemma NetPrefix(address: nat, x: nat, k: nat)
    ensures Shift(x, k) == Shift(ShiftLeft(Shift(address, k), k), k) <==> Shift(x, k) == Shift(address, k)
  {
    ShiftOfLeft(Shift(address, k), k);
  }

  lemma LeftIsEven(y: nat, k: nat)
    requires k > 0
    ensures ShiftLeft(y, k) % 2 == 0
  {
  }

  lemma NetBounds(r: Rule, x: nat)
    requires r.Range? && InNet(NetOf(r), r.family, x)
    ensures NetOf(r).address <= x <= Broadcast(NetOf(r))
    ensures NetOf(r).address % 2 == 1 ==> Broadcast(NetOf(r)) == NetOf(r).address
  {
    var k := Width(r.family) - NetOf(r).prefix;
    ShiftOfLeft(Shift(r.address, k), k);
    SplitBits(x, k);
    if k > 0 {
      LeftIsEven(Shift(r.address, k), k);
    }
  }

  /** All of a loopback network is loopback, not just its ends. */
  lemma LoopbackThroughout(r: Rule, x: nat)
    requires r.Range? && IsLoopbackNet(NetOf(r)) && InNet(NetOf(r), r.family, x)
    ensures IsLoopback(r.family, x)
  {
    var net := NetOf(r);
    NetBounds(r, x);
    ShiftMonotone(net.address, x, 24);
    ShiftMonotone(x, Broadcast(net), 24);
    if r.family.V6? && net.address != 1 {
      BigShift();
      ShiftMonotone(net.address, Broadcast(net), 24);
    }
  }

  /** 1 shifted by 24 is 0. */
  lemma BigShift()
    ensures Shift(1, 24) == 0
  {
    ShiftZero(23);
  }

  /**
   When the check passes and the netmasks are contiguous, the rules admit all of Docker's network and
   nothing but loopback and Docker's network, IPv4 and IPv6.
   */
  lemma PassingCheckBoundsAccess(
      keyword: (string, Family, nat) -> bool, rules: seq<Rule>, subnet: Net, f: Family, x: nat)
    requires ProperRules(rules) && HbaOk(rules, subnet) && IsAddress(f, x)
    ensures InNet(subnet, f, x) ==> AnyAdmits(keyword, rules, f, x)
    ensures AnyAdmits(keyword, rules, f, x) ==> IsLoopback(f, x) || InNet(subnet, f, x)
  {
    if InNet(subnet, f, x) {
      var i :| 0 <= i < |rules| && rules[i].Range? && NetOf(rules[i]) == subnet;
      RuleIsItsNet(keyword, rules[i], f, x);
      assert Admits(keyword, rules[i], f, x);
    }
    if i :| 0 <= i < |rules| && Admits(keyword, rules[i], f, x) {
      assert Inside(rules[i], subnet);
      RuleIsItsNet(keyword, rules[i], f, x);
      if IsLoopbackNet(NetOf(rules[i])) {
        LoopbackThroughout(rules[i], x);
      }
    }
  }

  // ---------- exactly when a passing rule admits only what it was read as ----------

  lemma {:induction false} ShiftOnes(w: nat, k: nat)
    requires k <= w
    ensures Shift(Ones(w), k) == Ones(w - k)
  {
    if k > 0 {
      ShiftOnes(w - 1, k - 1);
    }
  }

  lemma {:induction false} ShiftBound(w: nat, k: nat, x: nat)
    requires k <= w && x <= Ones(w)
    ensures Shift(x, k) <= Ones(w - k)
  {
    if k > 0 {
      ShiftBound(w - 1, k - 1, x / 2);
    }
  }

  /** The first bits of a masked address are its first bits masked. */
  lemma {:induction false} ShiftOfAnd(w: nat, k: nat, a: nat, m: nat)
    requires k <= w
    ensures Shift(And(w, a, m), k) == And(w - k, Shift(a, k), Shift(m, k))
  {
    if k > 0 {
      assert And(w, a, m) / 2 == And(w - 1, a / 2, m / 2);
      ShiftOfAnd(w - 1, k - 1, a / 2, m / 2);
    }
  }

  /** A mask with a zero bit lets some other address through. */
  lemma {:induction false} ZeroBitLetsThrough(w: nat, m: nat, a: nat) returns (x: nat)
    requires m <= Ones(w) && m != Ones(w) && a <= Ones(w)
    ensures x <= Ones(w) && x != a && And(w, x, m) == And(w, a, m)
    ensures PopCount(w, x) >= PopCount(w, a) - 1
  {
    if m % 2 == 0 {
      x := if a % 2 == 0 then a + 1 else a - 1;
      assert x / 2 == a / 2;
    } else {
      var y := ZeroBitLetsThrough(w - 1, m / 2, a / 2);
      x := 2 * y + a % 2;
    }
  }

  /** The same among the first bits: one of them changes, so at most one of their ones is lost. */
  lemma {:induction false} ZeroTopBitLetsThrough(w: nat, k: nat, m: nat, a: nat) returns (x: nat)
    requires k <= w && m <= Ones(w) && Shift(m, k) != Ones(w - k) && a <= Ones(w)
    ensures x <= Ones(w) && Shift(x, k) != Shift(a, k) && And(w, x, m) == And(w, a, m)
    ensures PopCount(w - k, Shift(x, k)) >= PopCount(w - k, Shift(a, k)) - 1
  {
    if k == 0 {
      x := ZeroBitLetsThrough(w, m, a);
    } else {
      var y := ZeroTopBitLetsThrough(w - 1, k - 1, m / 2, a / 2);
      x := 2 * y + a % 2;
    }
  }

  /** The first `w - k` bits of the mask are all ones. */
  predicate FixesFirst(w: nat, k: nat, m: nat)
    requires k <= w
  {
    Shift(m, k) == Ones(w - k)
  }

  lemma FixedBitsStay(w: nat, k: nat, m: nat, a: nat, x: nat)
    requires k <= w && m <= Ones(w) && a <= Ones(w) && x <= Ones(w) && FixesFirst(w, k, m) && Matches(w, a, m, x)
    ensures Shift(x, k) == Shift(a, k)
  {
    ShiftOfAnd(w, k, x, m);
    ShiftOfAnd(w, k, a, m);
    ShiftBound(w, k, x);
    ShiftBound(w, k, a);
    AndOnes(w - k, Shift(x, k));
    AndOnes(w - k, Shift(a, k));
  }

  ghost predicate KeepsFirst(w: nat, k: nat, m: nat, a: nat) {
    forall x: nat :: x <= Ones(w) && Matches(w, a, m, x) ==> Shift(x, k) == Shift(a, k)
  }

  /** A rule keeps the first `w - k` bits of its address exactly when its mask has ones there. */
  lemma FixesFirstIff(w: nat, k: nat, m: nat, a: nat)
    requires k <= w && m <= Ones(w) && a <= Ones(w)
    ensures FixesFirst(w, k, m) <==> KeepsFirst(w, k, m, a)
  {
    if FixesFirst(w, k, m) {
      forall x: nat | x <= Ones(w) && Matches(w, a, m, x) ensures Shift(x, k) == Shift(a, k) {
        FixedBitsStay(w, k, m, a, x);
      }
    } else {
      var x := ZeroTopBitLetsThrough(w, k, m, a);
      assert Matches(w, a, m, x);
    }
  }

  /** Fixing as many first bits as there are ones is being contiguous. */
  lemma {:induction false} FixesFirstIsContiguous(w: nat, m: nat)
    requires m <= Ones(w) && PopCount(w, m) <= w
    ensures FixesFirst(w, w - PopCount(w, m), m) <==> m == Mask(w, PopCount(w, m))
  {
    var p := PopCount(w, m);
    PopCountBounds(w, m);
    if p < w {
      if m % 2 == 0 {
        PopCountBounds(w - 1, m / 2);
        FixesFirstIsContiguous(w - 1, m / 2);
      } else {
        LowOneIsNotContiguous(w, m);
      }
    } else {
      assert Shift(m, 0) == m;
    }
  }

  lemma LowOneIsNotContiguous(w: nat, m: nat)
    requires w > 0 && m <= Ones(w) && m % 2 == 1 && PopCount(w, m) < w
    ensures !FixesFirst(w, w - PopCount(w, m), m) && m != Mask(w, PopCount(w, m))
  {
    var p := PopCount(w, m);
    assert Shift(m, w - p) == Shift(m / 2, w - 1 - p);
    CountShifted(w - 1, w - 1 - p, m / 2);
    OnesCount(p);
    assert Mask(w, p) == 2 * Mask(w - 1, p);
  }

  /** Dropping low bits leaves no more ones than there were. */
  lemma {:induction false} CountShifted(w: nat, k: nat, m: nat)
    requires k <= w
    ensures PopCount(w - k, Shift(m, k)) <= PopCount(w, m)
  {
    if k > 0 {
      CountShifted(w - 1, k - 1, m / 2);
    }
  }

  /** Everything the rule admits is loopback. */
  ghost predicate OnlyLoopback(r: Rule)
    requires r.Range?
  {
    forall x: nat :: IsAddress(r.family, x) && Matches(Width(r.family), r.address, r.mask, x)
      ==> IsLoopback(r.family, x)
  }

  /** Everything the rule admits is in the network it was read as. */
  ghost predicate OnlyItsNet(r: Rule)
    requires r.Range?
  {
    forall x: nat :: IsAddress(r.family, x) && Matches(Width(r.family), r.address, r.mask, x)
      ==> InNet(NetOf(r), r.family, x)
  }

  /** A rule read as its network admits nothing outside that network exactly when its mask is contiguous. */
  lemma OnlyItsNetIff(r: Rule)
    requires r.Range? && ProperRule(r)
    ensures OnlyItsNet(r) <==> Contiguous(Width(r.family), r.mask)
  {
    var w := Width(r.family);
    var p := PopCount(w, r.mask);
    PopCountBounds(w, r.mask);
    FixesFirstIff(w, w - p, r.mask, r.address);
    FixesFirstIsContiguous(w, r.mask);
    ContiguousAtItsCount(w, r.mask);
    forall x: nat ensures InNet(NetOf(r), r.family, x) <==> Shift(x, w - p) == Shift(r.address, w - p) {
      NetPrefix(r.address, x, w - p);
    }
  }

  lemma ContiguousAtItsCount(w: nat, m: nat)
    requires PopCount(w, m) <= w
    ensures Contiguous(w, m) <==> m == Mask(w, PopCount(w, m))
  {
    if p: nat :| p <= w && m == Mask(w, p) {
      MaskCounts(w, p);
    }
  }

  /** The last bits of an address do not reach past an odd end: a network ending in one is no wider. */
  lemma OddEndBoundsWidth(y: nat, k: nat, low: nat)
    requires Shift(ShiftLeft(y, k), low) % 2 == 1
    ensures k <= low
  {
    if k > low {
      ShiftLeftTwice(y, k - low, low);
      ShiftOfLeft(ShiftLeft(y, k - low), low);
    }
  }

  lemma {:induction false} ShiftLeftTwice(y: nat, a: nat, b: nat)
    ensures ShiftLeft(y, a + b) == ShiftLeft(ShiftLeft(y, a), b)
  {
    if b > 0 {
      ShiftLeftTwice(y, a, b - 1);
    }
  }

  /** A masked address has the same first bits as the address, as far as the mask reaches. */
  lemma FirstBitsSurvive(a: nat, k: nat, low: nat)
    requires k <= low
    ensures Shift(ShiftLeft(Shift(a, k), k), low) == Shift(a, low)
  {
    ShiftTwice(ShiftLeft(Shift(a, k), k), k, low - k);
    ShiftOfLeft(Shift(a, k), k);
    ShiftTwice(a, k, low - k);
  }

  lemma BlockAddress(a: nat, k: nat, block: nat)
    requires Shift(ShiftLeft(Shift(a, k), k), 24) == block && block % 2 == 1
    ensures Shift(a, 24) == block
  {
    OddEndBoundsWidth(Shift(a, k), k, 24);
    FirstBitsSurvive(a, k, 24);
  }

  lemma OneIsUnshifted(y: nat, k: nat)
    requires ShiftLeft(y, k) == 1
    ensures k == 0
  {
  }

  /** What a loopback rule's own address looks like: ::1 under a full mask, or inside one of the two blocks. */
  lemma LoopbackAddress(r: Rule)
    requires r.Range? && ProperRule(r) && IsLoopbackNet(NetOf(r))
    ensures (r.address == 1 && r.mask == Ones(Width(r.family)) && r.family.V6?)
         || (Shift(r.address, 24) == if r.family.V4? then 127 else 0xffff7f)
  {
    var w := Width(r.family);
    PopCountBounds(w, r.mask);
    var k: nat := w - PopCount(w, r.mask);
    if r.family.V6? && NetOf(r).address == 1 {
      OneIsUnshifted(Shift(r.address, k), k);
    } else {
      BlockAddress(r.address, k, if r.family.V4? then 127 else 0xffff7f);
    }
  }

  lemma TwoLowOnes(w: nat, m: nat)
    requires w >= 2 && m % 2 == 1 && m / 2 % 2 == 1
    ensures PopCount(w, m) >= 2
  {
    assert PopCount(w, m) == m % 2 + PopCount(w - 1, m / 2);
  }

  /** An address with a one among its first bits is not ::1. */
  lemma NotOne(w: nat, x: nat)
    requires w >= 24 && PopCount(w - 24, Shift(x, 24)) >= 1
    ensures x != 1
  {
    CountZero(w - 24);
    BigShift();
  }

  /** An open first bit leads out of the block the address is in, and not to ::1. */
  lemma LeavesItsBlock(w: nat, m: nat, a: nat, block: nat) returns (x: nat)
    requires w >= 26 && m <= Ones(w) && a <= Ones(w) && !FixesFirst(w, 24, m)
    requires Shift(a, 24) == block && block % 2 == 1 && block / 2 % 2 == 1
    ensures x <= Ones(w) && Matches(w, a, m, x) && Shift(x, 24) != block && x != 1
  {
    x := ZeroTopBitLetsThrough(w, 24, m, a);
    TwoLowOnes(w - 24, block);
    NotOne(w, x);
  }

  predicate InBlock(f: Family, first: nat) {
    first == if f.V4? then 127 else 0xffff7f
  }

  lemma OutOfBlock(f: Family, block: nat, x: nat)
    requires InBlock(f, block) && Shift(x, 24) != block && x != 1
    ensures !IsLoopback(f, x)
  {
  }

  lemma OpenRuleIsInBlock(r: Rule)
    requires r.Range? && ProperRule(r) && IsLoopbackNet(NetOf(r)) && !FixesFirst(Width(r.family), 24, r.mask)
    ensures InBlock(r.family, Shift(r.address, 24))
  {
    ShiftOnes(Width(r.family), 24);
    LoopbackAddress(r);
  }

  /** A rule in a loopback block whose mask leaves one of the first bits open admits an address that is not loopback. */
  lemma OpenLoopbackRule(r: Rule) returns (x: nat)
    requires r.Range? && ProperRule(r) && InBlock(r.family, Shift(r.address, 24))
    requires !FixesFirst(Width(r.family), 24, r.mask)
    ensures IsAddress(r.family, x) && Matches(Width(r.family), r.address, r.mask, x) && !IsLoopback(r.family, x)
  {
    x := LeavesItsBlock(Width(r.family), r.mask, r.address, Shift(r.address, 24));
    OutOfBlock(r.family, Shift(r.address, 24), x);
  }

  /** A rule read as loopback admits only loopback exactly when its mask fixes all but the last 24 bits. */
  lemma OnlyLoopbackIff(r: Rule)
    requires r.Range? && ProperRule(r) && IsLoopbackNet(NetOf(r))
    ensures OnlyLoopback(r) <==> FixesFirst(Width(r.family), 24, r.mask)
  {
    var w := Width(r.family);
    if FixesFirst(w, 24, r.mask) {
      LoopbackAddress(r);
      forall x: nat | IsAddress(r.family, x) && Matches(w, r.address, r.mask, x) ensures IsLoopback(r.family, x) {
        FixedBitsStay(w, 24, r.mask, r.address, x);
        if r.mask == Ones(w) {
          AndOnes(w, x);
          AndOnes(w, r.address);
        }
      }
    } else {
      OpenRuleIsInBlock(r);
      var x := OpenLoopbackRule(r);
      assert !OnlyLoopback(r);
    }
  }

  /** Everything a passing rule admits is of the kind it was let through as. */
  ghost predicate AdmitsAsRead(r: Rule)
    requires r.Range?
  {
    if IsLoopbackNet(NetOf(r)) then OnlyLoopback(r) else OnlyItsNet(r)
  }

  /** The mask reaches as far as the check took it to: past the loopback block, or over its whole prefix. */
  ghost predicate Tight(r: Rule)
    requires r.Range?
  {
    if IsLoopbackNet(NetOf(r)) then FixesFirst(Width(r.family), 24, r.mask) else Contiguous(Width(r.family), r.mask)
  }

  lemma AdmitsAsReadIff(r: Rule)
    requires r.Range? && ProperRule(r)
    ensures AdmitsAsRead(r) <==> Tight(r)
  {
    if IsLoopbackNet(NetOf(r)) {
      OnlyLoopbackIff(r);
    } else {
      OnlyItsNetIff(r);
    }
  }

  /** When the check passes and every mask is tight, the rules admit nothing but loopback and Docker's network. */
  lemma TightRulesBoundAccess(keyword: (string, Family, nat) -> bool, rules: seq<Rule>, subnet: Net, f: Family, x: nat)
    requires HbaOk(rules, subnet) && IsAddress(f, x) && AnyAdmits(keyword, rules, f, x)
    requires forall i :: 0 <= i < |rules| ==> ProperRule(rules[i]) && (rules[i].Range? ==> Tight(rules[i]))
    ensures IsLoopback(f, x) || InNet(subnet, f, x)
  {
    var i :| 0 <= i < |rules| && Admits(keyword, rules[i], f, x);
    assert Inside(rules[i], subnet);
    AdmitsAsReadIff(rules[i]);
  }

  // ---------- how wide an address is ----------

  lemma {:induction false} OnesAndOne(k: nat)
    ensures Ones(k) + 1 == ShiftLeft(1, k)
  {
    if k > 0 {
      OnesAndOne(k - 1);
    }
  }

  lemma LeftByThirtyTwo(y: nat)
    ensures ShiftLeft(y, 32) == 0x1_0000_0000 * y
  {
    ShiftLeftTwice(y, 24, 8);
    ShiftLeftTwice(ShiftLeft(y, 24), 4, 4);
    LeftByTwentyFour(y);
    LeftByFour(ShiftLeft(y, 24));
    LeftByFour(ShiftLeft(ShiftLeft(y, 24), 4));
  }

  /** Addresses have 32 bits, or 128. */
  lemma AddressRange(x: nat)
    ensures IsAddress(V4, x) <==> x < 0x1_0000_0000
    ensures IsAddress(V6, x) <==> x < 0x1_0000_0000 * 0x1_0000_0000 * 0x1_0000_0000 * 0x1_0000_0000
  {
    OnesAndOne(32);
    OnesAndOne(128);
    LeftByThirtyTwo(1);
    ShiftLeftTwice(1, 32, 32);
    LeftByThirtyTwo(0x1_0000_0000);
    ShiftLeftTwice(1, 64, 32);
    LeftByThirtyTwo(0x1_0000_0000 * 0x1_0000_0000);
    ShiftLeftTwice(1, 96, 32);
    LeftByThirtyTwo(0x1_0000_0000 * 0x1_0000_0000 * 0x1_0000_0000);
  }

  // ---------- a stray mask ----------

  lemma {:induction false} CountZero(w: nat)
    ensures PopCount(w, 0) == 0
  {
    if w > 0 {
      CountZero(w - 1);
    }
  }

  lemma {:induction false} ShiftTwice(x: nat, a: nat, b: nat)
    ensures Shift(x, a + b) == Shift(Shift(x, a), b)
  {
    if a > 0 {
      ShiftTwice(x / 2, a - 1, b);
    }
  }

  /** The low bits do not reach the high ones. */
  lemma {:induction false} ShiftOfFilled(y: nat, k: nat, low: nat)
    requires low <= Ones(k)
    ensures Shift(ShiftLeft(y, k) + low, k) == y
  {
    if k > 0 {
      ShiftOfFilled(y, k - 1, low / 2);
      assert (ShiftLeft(y, k) + low) / 2 == ShiftLeft(y, k - 1) + low / 2;
    }
  }

  /** The ones of the high bits and of the low bits. */
  lemma {:induction false} CountFilled(w: nat, k: nat, y: nat, low: nat)
    requires low <= Ones(k)
    ensures PopCount(w + k, ShiftLeft(y, k) + low) == PopCount(w, y) + PopCount(k, low)
  {
    if k > 0 {
      CountFilled(w, k - 1, y, low / 2);
      assert (ShiftLeft(y, k) + low) / 2 == ShiftLeft(y, k - 1) + low / 2;
    }
  }

  /** Masking works on the high bits and on the low bits apart. */
  lemma {:induction false} AndFilled(w: nat, k: nat, a: nat, low: nat, n: nat, mask: nat)
    requires low <= Ones(k) && mask <= Ones(k)
    ensures And(w + k, ShiftLeft(a, k) + low, ShiftLeft(n, k) + mask) == ShiftLeft(And(w, a, n), k) + And(k, low, mask)
  {
    if k > 0 {
      AndFilled(w, k - 1, a, low / 2, n, mask / 2);
      HalfOfFilled(a, k, low);
      HalfOfFilled(n, k, mask);
    }
  }

  lemma HalfOfFilled(y: nat, k: nat, low: nat)
    requires k > 0
    ensures (ShiftLeft(y, k) + low) / 2 == ShiftLeft(y, k - 1) + low / 2 && (ShiftLeft(y, k) + low) % 2 == low % 2
  {
  }

  lemma {:induction false} OnesAnd(w: nat, m: nat)
    requires m <= Ones(w)
    ensures And(w, Ones(w), m) == m && And(w, m, m) == m
  {
    if w > 0 {
      OnesAnd(w - 1, m / 2);
    }
  }

  lemma {:induction false} AndZeroMask(w: nat, x: nat)
    ensures And(w, x, 0) == 0
  {
    if w > 0 {
      AndZeroMask(w - 1, x / 2);
    }
  }

  /** The mask 1 keeps only whether an address is odd. */
  lemma AndLastBit(w: nat, x: nat)
    requires w > 0
    ensures And(w, x, 1) == x % 2 && PopCount(w, 1) == 1
  {
    AndZeroMask(w - 1, x / 2);
    CountZero(w - 1);
  }

  lemma LeftByFour(y: nat)
    ensures ShiftLeft(y, 4) == 16 * y
  {
    assert ShiftLeft(y, 1) == 2 * ShiftLeft(y, 0) && ShiftLeft(y, 2) == 2 * ShiftLeft(y, 1);
    assert ShiftLeft(y, 3) == 2 * ShiftLeft(y, 2) && ShiftLeft(y, 4) == 2 * ShiftLeft(y, 3);
  }

  lemma LeftByTwelve(y: nat)
    ensures ShiftLeft(y, 12) == 4096 * y
  {
    ShiftLeftTwice(y, 4, 4);
    ShiftLeftTwice(y, 8, 4);
    LeftByFour(y);
    LeftByFour(ShiftLeft(y, 4));
    LeftByFour(ShiftLeft(y, 8));
  }

  lemma LeftByTwentyFour(y: nat)
    ensures ShiftLeft(y, 24) == 0x1000000 * y
  {
    ShiftLeftTwice(y, 12, 12);
    LeftByTwelve(y);
    LeftByTwelve(ShiftLeft(y, 12));
  }

  lemma StrayCount(w: nat, k: nat)
    requires k > 0
    ensures PopCount(w + 1 + k, ShiftLeft(Ones(w), k) + 1) == w + 1
  {
    assert 1 <= Ones(k);
    CountFilled(w + 1, k, Ones(w), 1);
    OnesBelow(w);
    AndLastBit(k, 0);
  }

  lemma NetOfCount(r: Rule, k: nat)
    requires r.Range? && PopCount(Width(r.family), r.mask) + k == Width(r.family)
    ensures NetOf(r) == Net(r.family, ShiftLeft(Shift(r.address, k), k), PopCount(Width(r.family), r.mask))
    ensures Broadcast(NetOf(r)) == NetOf(r).address + Ones(k)
  {
  }

  /** As many ones as the block is long: the rule reads as the block itself. */
  lemma StrayReadsAsBlock(r: Rule, w: nat, k: nat)
    requires r.Range? && Width(r.family) == w + 1 + k && k > 0
    requires r.address == ShiftLeft(Ones(w), k) && r.mask == ShiftLeft(Ones(w), k) + 1
    ensures Shift(NetOf(r).address, k) == Ones(w) && Shift(Broadcast(NetOf(r)), k) == Ones(w)
    ensures NetOf(r).family == r.family
  {
    StrayCount(w, k);
    NetOfCount(r, k);
    ShiftOfLeft(Ones(w), k);
    ShiftOfFilled(Ones(w), k, Ones(k));
  }

  lemma {:induction false} OnesBelow(w: nat)
    ensures PopCount(w + 1, Ones(w)) == w
  {
    if w > 0 {
      OnesBelow(w - 1);
    }
  }

  /** The address with all high bits set and an even end matches the stray mask. */
  lemma StrayMatches(w: nat, k: nat, block: nat)
    requires k >= 2 && block <= Ones(w)
    ensures Matches(w + k, ShiftLeft(block, k), ShiftLeft(block, k) + 1, ShiftLeft(Ones(w), k) + 2)
  {
    assert 2 <= Ones(k);
    AndFilled(w, k, Ones(w), 2, block, 1);
    AndFilled(w, k, block, 0, block, 1);
    AndLastBit(k, 2);
    AndLastBit(k, 0);
    OnesAnd(w, block);
  }

  lemma SmallOnes()
    ensures Ones(7) == 127 && Ones(8) == 255
  {
    assert Ones(4) == 15 && Ones(5) == 31 && Ones(6) == 63;
  }

  lemma StrayNetPasses(r: Rule, k: nat)
    requires r.Range? && r.family.V4? && k == 24
    requires r.address == ShiftLeft(Ones(7), k) && r.mask == ShiftLeft(Ones(7), k) + 1
    ensures IsLoopbackNet(NetOf(r))
  {
    SmallOnes();
    StrayReadsAsBlock(r, 7, k);
  }

  lemma LoopbackV4(k: nat, x: nat)
    requires k == 24
    ensures IsLoopback(V4, x) <==> Shift(x, k) == 127
  {
  }

  lemma HighBlock(k: nat, x: nat)
    requires k >= 2 && x == ShiftLeft(Ones(8), k) + 2
    ensures Shift(x, k) == Ones(8)
  {
    assert 2 <= Ones(k);
    ShiftOfFilled(Ones(8), k, 2);
  }

  lemma HighAddressIsForeign(k: nat, x: nat)
    requires k == 24 && x == ShiftLeft(Ones(8), k) + 2
    ensures !IsLoopback(V4, x)
  {
    HighBlock(k, x);
    LoopbackV4(k, x);
    SmallOnes();
  }

  lemma StrayAdmits(a: nat, m: nat, x: nat, k: nat)
    requires k == 24 && a == ShiftLeft(Ones(7), k) && m == ShiftLeft(Ones(7), k) + 1 && x == ShiftLeft(Ones(8), k) + 2
    ensures Matches(32, a, m, x)
  {
    assert Ones(7) <= Ones(8);
    StrayMatches(8, k, Ones(7));
  }

  lemma PairPasses(docker: Rule, stray: Rule, subnet: Net)
    requires docker.Range? && NetOf(docker) == subnet && stray.Range? && IsLoopbackNet(NetOf(stray))
    ensures HbaOk([docker, stray], subnet)
  {
    assert [docker, stray][0] == docker && Inside(docker, subnet) && Inside(stray, subnet);
  }

  lemma StrayAddresses()
    ensures ShiftLeft(Ones(7), 24) == 0x7f000000 && ShiftLeft(Ones(8), 24) + 2 == 0xff000002
  {
    SmallOnes();
    LeftByTwentyFour(Ones(7));
    LeftByTwentyFour(Ones(8));
  }

  /**
   A rule for 127.0.0.0 with the mask 127.0.0.1 has eight bits set, so it reads as 127.0.0.0/8 and passes
   beside the rule for any Docker network; PostgreSQL lets 255.0.0.2 in by it.
   */
  lemma StrayMaskPasses(keyword: (string, Family, nat) -> bool, docker: Rule, stray: Rule, subnet: Net, x: nat)
    requires docker.Range? && NetOf(docker) == subnet
    requires stray == Range(V4, 0x7f000000, 0x7f000001) && x == 0xff000002
    ensures HbaOk([docker, stray], subnet) && Admits(keyword, stray, V4, x) && !IsLoopback(V4, x)
  {
    StrayAddresses();
    StrayNetPasses(stray, 24);
    StrayAdmits(stray.address, stray.mask, x, 24);
    HighAddressIsForeign(24, x);
    PairPasses(docker, stray, subnet);
  }
}
