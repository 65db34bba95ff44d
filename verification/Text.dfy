/**
 The Python string operations the platform is written with: `replace`, `partition`, `split`,
 `splitlines` and `join`, as functions on `string`, with the facts the other modules need.
 */
module Text {

  // ---------- occurrences and replace ----------

  predicate OccursAt(s: string, p: string, i: nat) {
    i + |p| <= |s| && s[i..i + |p|] == p
  }

  ghost predicate Contains(s: string, p: string) {
    exists i: nat :: OccursAt(s, p, i)
  }

  /** `s.replace(p, v)`: leftmost, non-overlapping occurrences. */
  function Replace(s: string, p: string, v: string): string
    requires p != ""
  {
    if |s| < |p| then s
    else if p <= s then v + Replace(s[|p|..], p, v)
    else [s[0]] + Replace(s[1..], p, v)
  }

  lemma {:induction false} ReplaceAbsent(s: string, p: string, v: string)
    requires p != "" && !Contains(s, p)
    ensures Replace(s, p, v) == s
  {
    if |s| >= |p| {
      assert !(p <= s) by {
        if p <= s { assert OccursAt(s, p, 0); }
      }
      assert !Contains(s[1..], p) by {
        if Contains(s[1..], p) {
          var i: nat :| OccursAt(s[1..], p, i);
          assert s[i + 1..i + 1 + |p|] == s[1..][i..i + |p|];
          assert OccursAt(s, p, i + 1);
        }
      }
      ReplaceAbsent(s[1..], p, v);
    }
  }

  /** No occurrence of `p` straddles the seam between `a` and `b`. */
  ghost predicate CleanSeam(a: string, b: string, p: string) {
    a == "" || b == "" || a[|a| - 1] !in p || b[0] !in p
  }

  lemma StraddlingNeedsBoth(a: string, b: string, p: string, i: nat)
    requires OccursAt(a + b, p, i) && i < |a| < i + |p|
    ensures !CleanSeam(a, b, p)
  {
    assert (a + b)[i..i + |p|][|a| - 1 - i] == a[|a| - 1];
    assert (a + b)[i..i + |p|][|a| - i] == b[0];
  }

  lemma {:induction false} ReplaceAcrossSeam(a: string, b: string, p: string, v: string)
    requires p != "" && CleanSeam(a, b, p)
    ensures Replace(a + b, p, v) == Replace(a, p, v) + Replace(b, p, v)
  {
    if a == "" {
      assert a + b == b;
    } else if b == "" {
      assert a + b == a;
      assert Replace(a, p, v) + "" == Replace(a, p, v);
    } else if p <= a + b {
      SeamMatch(a, b, p);
      ReplaceAcrossSeam(a[|p|..], b, p, v);
      ReplaceMatch(a + b, p, v);
      ReplaceMatch(a, p, v);
      Assoc(v, Replace(a[|p|..], p, v), Replace(b, p, v));
    } else {
      SeamSkip(a, b, p);
      ReplaceAcrossSeam(a[1..], b, p, v);
      ReplaceSkip(a + b, p, v);
      ReplaceSkip(a, p, v);
      Assoc([a[0]], Replace(a[1..], p, v), Replace(b, p, v));
    }
  }

  lemma SeamMatch(a: string, b: string, p: string)
    requires p != "" && CleanSeam(a, b, p) && a != "" && b != "" && p <= a + b
    ensures p <= a && (a + b)[|p|..] == a[|p|..] + b && CleanSeam(a[|p|..], b, p)
  {
    assert OccursAt(a + b, p, 0);
    if |a| < |p| {
      StraddlingNeedsBoth(a, b, p, 0);
    }
    assert a[..|p|] == (a + b)[..|p|];
  }

  lemma SeamSkip(a: string, b: string, p: string)
    requires p != "" && CleanSeam(a, b, p) && a != "" && b != "" && !(p <= a + b)
    ensures !(p <= a) && (a + b)[1..] == a[1..] + b && (a + b)[0] == a[0] && CleanSeam(a[1..], b, p)
  {
  }

  lemma ReplaceMatch(s: string, p: string, v: string)
    requires p != "" && p <= s
    ensures Replace(s, p, v) == v + Replace(s[|p|..], p, v)
  {
  }

  lemma ReplaceSkip(s: string, p: string, v: string)
    requires p != "" && s != "" && !(p <= s)
    ensures Replace(s, p, v) == [s[0]] + Replace(s[1..], p, v)
  {
    if |s| < |p| {
      assert [s[0]] + s[1..] == s;
    }
  }

  lemma ReplaceWhole(p: string, v: string)
    requires p != ""
    ensures Replace(p, p, v) == v
  {
    assert p[|p|..] == "";
    assert v + "" == v;
  }

  lemma {:induction false} ReplaceCharConcat(a: string, b: string, c: char, v: string)
    ensures Replace(a + b, [c], v) == Replace(a, [c], v) + Replace(b, [c], v)
  {
    if a == "" {
      assert a + b == b;
    } else {
      assert (a + b)[1..] == a[1..] + b;
      ReplaceCharHead(a + b, c, v);
      ReplaceCharHead(a, c, v);
      ReplaceCharConcat(a[1..], b, c, v);
      Assoc(if a[0] == c then v else [a[0]], Replace(a[1..], [c], v), Replace(b, [c], v));
    }
  }

  lemma ReplaceCharHead(s: string, c: char, v: string)
    requires s != ""
    ensures Replace(s, [c], v) == (if s[0] == c then v else [s[0]]) + Replace(s[1..], [c], v)
  {
    assert [c] <= s <==> s[0] == c;
  }

  // ---------- partition, split, join ----------

  /** The index of the first `c` in `s`, or `|s|`. */
  function IndexOf(s: string, c: char): (i: nat)
    ensures i <= |s|
    ensures c !in s[..i]
    ensures i < |s| ==> s[i] == c
  {
    if s == "" || s[0] == c then 0 else
      var rest := IndexOf(s[1..], c);
      assert s[..1 + rest] == [s[0]] + s[1..][..rest];
      1 + rest
  }

  /** `s.partition(c)[0]`. */
  function Before(s: string, c: char): string {
    s[..IndexOf(s, c)]
  }

  /** `s.partition(c)[2]`. */
  function After(s: string, c: char): string {
    var i := IndexOf(s, c);
    if i == |s| then "" else s[i + 1..]
  }

  lemma IndexOfIs(s: string, c: char, i: nat)
    requires i <= |s| && c !in s[..i] && (i < |s| ==> s[i] == c)
    ensures IndexOf(s, c) == i
  {
  }

  lemma PartitionAt(a: string, c: char, b: string)
    requires c !in a
    ensures IndexOf(a + [c] + b, c) == |a|
    ensures Before(a + [c] + b, c) == a && After(a + [c] + b, c) == b
  {
    var s := a + [c] + b;
    assert s[..|a|] == a;
    IndexOfIs(s, c, |a|);
    assert s[|a| + 1..] == b;
  }

  /** `s.split(c)`: one more piece than there are separators. */
  function Split(s: string, c: char): (pieces: seq<string>)
    ensures |pieces| >= 1
    decreases |s|
  {
    var i := IndexOf(s, c);
    if i == |s| then [s] else [s[..i]] + Split(s[i + 1..], c)
  }

  /** `s.rsplit(c, 1)[-1]`: what follows the last separator. */
  function AfterLast(s: string, c: char): (r: string)
    ensures c !in r
  {
    if s == "" then ""
    else if s[|s| - 1] == c then ""
    else AfterLast(s[..|s| - 1], c) + [s[|s| - 1]]
  }

  /** `sep.join(lines)`. */
  function Join(lines: seq<string>, sep: string): string {
    if lines == [] then ""
    else if |lines| == 1 then lines[0]
    else lines[0] + sep + Join(lines[1..], sep)
  }

  /** What `str.strip` takes off. */
  predicate IsSpace(c: char) {
    || c == ' ' || '\t' <= c <= '\r' || '\U{1c}' <= c <= '\U{1f}' || c == '\U{85}' || c == '\U{a0}'
    || c == '\U{1680}' || '\U{2000}' <= c <= '\U{200a}' || c == '\U{2028}' || c == '\U{2029}'
    || c == '\U{202f}' || c == '\U{205f}' || c == '\U{3000}'
  }

  function Strip(s: string): string {
    if s == "" then ""
    else if IsSpace(s[0]) then Strip(s[1..])
    else if IsSpace(s[|s| - 1]) then Strip(s[..|s| - 1])
    else s
  }

  ghost predicate AllSpace(s: string) {
    forall i :: 0 <= i < |s| ==> IsSpace(s[i])
  }

  /** `strip` takes off exactly the white space at both ends. */
  lemma {:induction false} StripBoth(left: string, core: string, right: string)
    requires AllSpace(left) && AllSpace(right)
    requires core != "" && !IsSpace(core[0]) && !IsSpace(core[|core| - 1])
    ensures Strip(left + core + right) == core
    decreases |left| + |right|
  {
    var s := left + core + right;
    if left != "" {
      assert s[0] == left[0] && s[1..] == left[1..] + core + right;
      StripBoth(left[1..], core, right);
    } else if right != "" {
      assert s[0] == core[0] && s[|s| - 1] == right[|right| - 1];
      assert s[..|s| - 1] == left + core + right[..|right| - 1];
      StripBoth(left, core, right[..|right| - 1]);
    } else {
      assert s == core;
    }
  }

  // ---------- splitlines ----------

  /** Where `str.splitlines` breaks. */
  predicate IsBreak(c: char) {
    || c == '\n' || c == '\r' || c == '\U{0b}' || c == '\U{0c}' || c == '\U{1c}' || c == '\U{1d}'
    || c == '\U{1e}' || c == '\U{85}' || c == '\U{2028}' || c == '\U{2029}'
  }

  predicate BreakFree(s: string) {
    forall i :: 0 <= i < |s| ==> !IsBreak(s[i])
  }

  predicate AllBreakFree(lines: seq<string>) {
    forall k :: 0 <= k < |lines| ==> BreakFree(lines[k])
  }

  function LineEnd(s: string): (n: nat)
    ensures n <= |s| && BreakFree(s[..n])
    ensures n < |s| ==> IsBreak(s[n])
  {
    if s == "" || IsBreak(s[0]) then 0 else
      var rest := LineEnd(s[1..]);
      assert s[..1 + rest] == [s[0]] + s[1..][..rest];
      1 + rest
  }

  function BreakWidth(s: string, n: nat): (width: nat)
    requires n < |s|
    ensures 1 <= width && n + width <= |s|
  {
    if s[n] == '\r' && n + 1 < |s| && s[n + 1] == '\n' then 2 else 1
  }

  predicate HasBreak(s: string) {
    LineEnd(s) < |s|
  }

  function FirstLine(s: string): string {
    s[..LineEnd(s)]
  }

  /** What follows the first line and its break. */
  function OtherLines(s: string): (rest: string)
    requires HasBreak(s)
    ensures |rest| < |s|
  {
    s[LineEnd(s) + BreakWidth(s, LineEnd(s))..]
  }

  /** `s.splitlines()`; "\r\n" is one break, and a final break opens no further line. */
  function SplitLines(s: string): seq<string>
    decreases |s|
  {
    if s == "" then []
    else if !HasBreak(s) then [s]
    else [FirstLine(s)] + SplitLines(OtherLines(s))
  }

  lemma {:induction false} SplitLinesBreakFree(s: string)
    ensures AllBreakFree(SplitLines(s))
    decreases |s|
  {
    if HasBreak(s) {
      SplitLinesBreakFree(OtherLines(s));
    } else {
      assert s[..|s|] == s;
    }
  }

  /** Each line followed by "\n". */
  function Unlines(lines: seq<string>): string {
    if lines == [] then "" else lines[0] + "\n" + Unlines(lines[1..])
  }

  lemma {:induction false} JoinThenBreak(lines: seq<string>)
    requires lines != []
    ensures Join(lines, "\n") + "\n" == Unlines(lines)
  {
    if |lines| > 1 {
      JoinThenBreak(lines[1..]);
      assert Join(lines, "\n") + "\n" == lines[0] + "\n" + (Join(lines[1..], "\n") + "\n");
    } else {
      assert lines[1..] == [];
      assert lines[0] + "\n" + "" == lines[0] + "\n";
    }
  }

  lemma {:induction false} UnlinesConcat(a: seq<string>, b: seq<string>)
    ensures Unlines(a + b) == Unlines(a) + Unlines(b)
  {
    if a == [] {
      assert a + b == b;
    } else {
      assert (a + b)[1..] == a[1..] + b;
      UnlinesConcat(a[1..], b);
    }
  }

  lemma {:induction false} LineEndIs(s: string, n: nat)
    requires n <= |s| && BreakFree(s[..n]) && (n < |s| ==> IsBreak(s[n]))
    ensures LineEnd(s) == n
  {
    if n > 0 {
      assert s[0] == s[..n][0];
      assert s[1..][..n - 1] == s[..n][1..];
      LineEndIs(s[1..], n - 1);
    }
  }

  lemma FirstLineIs(line: string, rest: string)
    requires BreakFree(line)
    ensures var s := line + "\n" + rest; HasBreak(s) && FirstLine(s) == line && OtherLines(s) == rest
  {
    var s := line + "\n" + rest;
    assert s[..|line|] == line && s[|line|] == '\n';
    LineEndIs(s, |line|);
    assert s[|line| + 1..] == rest;
  }

  lemma SplitFirstLine(line: string, rest: string)
    requires BreakFree(line)
    ensures SplitLines(line + "\n" + rest) == [line] + SplitLines(rest)
  {
    FirstLineIs(line, rest);
  }

  lemma SplitFirstOf(first: string, others: seq<string>, rest: string)
    requires BreakFree(first)
    ensures SplitLines(Unlines([first] + others) + rest) == [first] + SplitLines(Unlines(others) + rest)
  {
    assert ([first] + others)[1..] == others;
    assert Unlines([first] + others) + rest == first + "\n" + (Unlines(others) + rest);
    SplitFirstLine(first, Unlines(others) + rest);
  }

  lemma {:induction false} SplitLinesAfter(lines: seq<string>, rest: string)
    requires AllBreakFree(lines)
    ensures SplitLines(Unlines(lines) + rest) == lines + SplitLines(rest)
  {
    if lines == [] {
      assert Unlines(lines) + rest == rest;
      assert lines + SplitLines(rest) == SplitLines(rest);
    } else {
      SplitLinesAfter(lines[1..], rest);
      SplitFirstOf(lines[0], lines[1..], rest);
      Glue(lines, SplitLines(rest));
    }
  }

  lemma Assoc<T>(a: seq<T>, b: seq<T>, c: seq<T>)
    ensures (a + b) + c == a + (b + c)
  {
  }

  lemma Glue<T>(a: seq<T>, b: seq<T>)
    requires a != []
    ensures [a[0]] + a[1..] == a
    ensures [a[0]] + (a[1..] + b) == a + b
  {
  }

  lemma SplitLinesOfUnlines(lines: seq<string>)
    requires AllBreakFree(lines)
    ensures SplitLines(Unlines(lines)) == lines
  {
    SplitLinesAfter(lines, "");
    assert Unlines(lines) + "" == Unlines(lines);
  }
}
