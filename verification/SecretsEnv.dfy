/**
 secrets.env: one NAME=value line per secret. A save drops every line of the names it is given,
 keeps the other lines in order, and appends one fresh line per name; a read returns the first
 line of a name.
 */
module SecretsEnv {
  import opened Wrappers
  import opened Text

  datatype Entry = Entry(name: string, value: string)

  // ---------- the file's text as a function ----------

  function Key(line: string): string {
    Before(line, '=')
  }

  function Names(values: seq<Entry>): set<string> {
    set i | 0 <= i < |values| :: values[i].name
  }

  /** The lines a save keeps. */
  function Kept(lines: seq<string>, names: set<string>): seq<string> {
    if lines == [] then []
    else (if Key(lines[0]) in names then [] else [lines[0]]) + Kept(lines[1..], names)
  }

  /** The lines a save appends. */
  function EntryLines(values: seq<Entry>): seq<string> {
    if values == [] then [] else [values[0].name + "=" + values[0].value] + EntryLines(values[1..])
  }

  /** A missing file has no lines. */
  function LinesOf(text: Option<string>): seq<string> {
    if text.None? then [] else SplitLines(text.value)
  }

  /** The text `save_secrets` writes over `text`. */
  function Saved(text: Option<string>, values: seq<Entry>): string {
    Join(Kept(LinesOf(text), Names(values)) + EntryLines(values), "\n") + "\n"
  }

  function Lookup(lines: seq<string>, name: string): Option<string> {
    if lines == [] then None
    else if Key(lines[0]) == name then Some(After(lines[0], '='))
    else Lookup(lines[1..], name)
  }

  /** What `read_secret` returns. */
  function Read(text: Option<string>, name: string): Option<string> {
    Lookup(LinesOf(text), name)
  }

  /** What `saved_check` reports: every name has a line and only root reads the file. */
  predicate SavedCheck(text: Option<string>, rootOnly: bool, names: seq<string>) {
    text.Some? && rootOnly && forall n :: n in names ==> Read(text, n).Some?
  }

  /** The argument is a Python dict: one value per name. */
  ghost predicate IsDict(values: seq<Entry>) {
    forall i, j :: 0 <= i < j < |values| ==> values[i].name != values[j].name
  }

  /** Names that can head a line of the file. */
  predicate PlainNames(values: seq<Entry>) {
    forall i :: 0 <= i < |values| ==> '=' !in values[i].name && BreakFree(values[i].name)
  }

  predicate ValuesBreakFree(values: seq<Entry>) {
    forall i :: 0 <= i < |values| ==> BreakFree(values[i].value)
  }

  /** Every saved name reads back as its value. */
  ghost predicate ReadsBack(text: Option<string>, values: seq<Entry>) {
    forall i :: 0 <= i < |values| ==> Read(text, values[i].name) == Some(values[i].value)
  }

  // ---------- lookups ----------

  lemma {:induction false} LookupConcat(a: seq<string>, b: seq<string>, name: string)
    ensures Lookup(a + b, name) == if Lookup(a, name).Some? then Lookup(a, name) else Lookup(b, name)
  {
    if a == [] {
      assert a + b == b;
    } else {
      assert (a + b)[1..] == a[1..] + b;
      LookupConcat(a[1..], b, name);
    }
  }

  lemma {:induction false} LookupKept(lines: seq<string>, names: set<string>, name: string)
    ensures Lookup(Kept(lines, names), name) == if name in names then None else Lookup(lines, name)
  {
    if lines != [] {
      LookupKept(lines[1..], names, name);
      var rest := Kept(lines[1..], names);
      assert [] + rest == rest;
      assert ([lines[0]] + rest)[1..] == rest;
    }
  }

  lemma {:induction false} KeptBreakFree(lines: seq<string>, names: set<string>)
    requires AllBreakFree(lines)
    ensures AllBreakFree(Kept(lines, names))
  {
    if lines != [] {
      KeptBreakFree(lines[1..], names);
    }
  }

  lemma EntryLineParts(e: Entry)
    requires '=' !in e.name
    ensures Key(e.name + "=" + e.value) == e.name && After(e.name + "=" + e.value, '=') == e.value
  {
    PartitionAt(e.name, '=', e.value);
  }

  lemma {:induction false} LookupEntry(values: seq<Entry>, i: nat)
    requires PlainNames(values) && IsDict(values) && i < |values|
    ensures Lookup(EntryLines(values), values[i].name) == Some(values[i].value)
  {
    EntryLineParts(values[0]);
    if i > 0 {
      LookupEntry(values[1..], i - 1);
    }
  }

  lemma {:induction false} EntryLinesBreakFree(values: seq<Entry>)
    requires PlainNames(values) && ValuesBreakFree(values)
    ensures AllBreakFree(EntryLines(values))
  {
    if values != [] {
      EntryLinesBreakFree(values[1..]);
    }
  }

  // ---------- what the written text splits into ----------

  /** The text after a save is the kept lines, then whatever the appended text splits into. */
  lemma SavedSplits(text: Option<string>, values: seq<Entry>)
    requires values != []
    ensures SplitLines(Saved(text, values))
         == Kept(LinesOf(text), Names(values)) + SplitLines(Unlines(EntryLines(values)))
  {
    var kept, added := Kept(LinesOf(text), Names(values)), EntryLines(values);
    assert |added| > 0;
    JoinThenBreak(kept + added);
    UnlinesConcat(kept, added);
    if text.Some? {
      SplitLinesBreakFree(text.value);
    }
    KeptBreakFree(LinesOf(text), Names(values));
    SplitLinesAfter(kept, Unlines(added));
  }

  /** With break-free values, the file afterwards holds the kept lines and one line per name. */
  lemma SavedLines(text: Option<string>, values: seq<Entry>)
    requires values != [] && PlainNames(values) && ValuesBreakFree(values)
    ensures SplitLines(Saved(text, values)) == Kept(LinesOf(text), Names(values)) + EntryLines(values)
  {
    SavedSplits(text, values);
    EntryLinesBreakFree(values);
    SplitLinesOfUnlines(EntryLines(values));
  }

  /** `values` non-empty matters: saving nothing into nothing still leaves one blank line behind. */
  lemma SavingNothingAddsABlankLine()
    ensures Read(None, "") == None && Read(Some(Saved(None, [])), "") == Some("")
  {
    assert Saved(None, []) == "\n";
    SplitFirstLine("", "");
    assert "" + "\n" + "" == "\n";
    assert SplitLines("\n") == [""];
  }

  // ---------- the file's laws ----------

  lemma {:induction false} LookupIsBreakFree(lines: seq<string>, name: string)
    requires AllBreakFree(lines)
    ensures Lookup(lines, name).Some? ==> BreakFree(Lookup(lines, name).value)
  {
    if lines != [] {
      LookupIsBreakFree(lines[1..], name);
    }
  }

  lemma ReadIsBreakFree(text: Option<string>, name: string)
    ensures Read(text, name).Some? ==> BreakFree(Read(text, name).value)
  {
    if text.Some? {
      SplitLinesBreakFree(text.value);
      LookupIsBreakFree(SplitLines(text.value), name);
    }
  }

  /** Whatever the values, a name that is not saved and already has a line reads as before. */
  lemma PresentNamesSurvive(text: Option<string>, values: seq<Entry>, name: string)
    requires values != [] && name !in Names(values) && Read(text, name).Some?
    ensures Read(Some(Saved(text, values)), name) == Read(text, name)
  {
    SavedSplits(text, values);
    LookupKept(LinesOf(text), Names(values), name);
    LookupConcat(Kept(LinesOf(text), Names(values)), SplitLines(Unlines(EntryLines(values))), name);
  }

  /** A saved name is read from the appended text: every older line of it is gone. */
  lemma SavedNameReadsFresh(text: Option<string>, values: seq<Entry>, i: nat)
    requires i < |values|
    ensures Read(Some(Saved(text, values)), values[i].name)
         == Lookup(SplitLines(Unlines(EntryLines(values))), values[i].name)
  {
    var name := values[i].name;
    assert name in Names(values);
    SavedSplits(text, values);
    LookupKept(LinesOf(text), Names(values), name);
    LookupConcat(Kept(LinesOf(text), Names(values)), SplitLines(Unlines(EntryLines(values))), name);
  }

  /** Every saved name reads back as its value exactly when no value holds a line break. */
  lemma ReadsBackIffBreakFree(text: Option<string>, values: seq<Entry>)
    requires PlainNames(values) && IsDict(values)
    ensures ReadsBack(Some(Saved(text, values)), values) <==> ValuesBreakFree(values)
  {
    var after := Some(Saved(text, values));
    if ValuesBreakFree(values) {
      EntryLinesBreakFree(values);
      SplitLinesOfUnlines(EntryLines(values));
      forall i | 0 <= i < |values| ensures Read(after, values[i].name) == Some(values[i].value) {
        SavedNameReadsFresh(text, values, i);
        LookupEntry(values, i);
      }
    } else {
      var i :| 0 <= i < |values| && !BreakFree(values[i].value);
      ReadIsBreakFree(after, values[i].name);
    }
  }

  /** Saving keeps the order of the lines it does not own. */
  lemma OtherLinesKeepTheirOrder(text: Option<string>, values: seq<Entry>)
    requires values != [] && PlainNames(values) && ValuesBreakFree(values)
    ensures Kept(LinesOf(Some(Saved(text, values))), Names(values)) == Kept(LinesOf(text), Names(values))
  {
    SavedLines(text, values);
    KeptConcat(Kept(LinesOf(text), Names(values)), EntryLines(values), Names(values));
    KeptTwice(LinesOf(text), Names(values));
    KeptEntries(values, Names(values));
    assert Kept(LinesOf(text), Names(values)) + [] == Kept(LinesOf(text), Names(values));
  }

  lemma {:induction false} KeptConcat(a: seq<string>, b: seq<string>, names: set<string>)
    ensures Kept(a + b, names) == Kept(a, names) + Kept(b, names)
  {
    if a == [] {
      assert a + b == b;
    } else {
      assert (a + b)[1..] == a[1..] + b;
      KeptConcat(a[1..], b, names);
    }
  }

  lemma {:induction false} KeptTwice(lines: seq<string>, names: set<string>)
    ensures Kept(Kept(lines, names), names) == Kept(lines, names)
  {
    if lines != [] {
      KeptTwice(lines[1..], names);
      var rest := Kept(lines[1..], names);
      assert [] + rest == rest;
      assert ([lines[0]] + rest)[1..] == rest;
    }
  }

  lemma {:induction false} KeptEntries(values: seq<Entry>, names: set<string>)
    requires PlainNames(values) && Names(values) <= names
    ensures Kept(EntryLines(values), names) == []
  {
    if values != [] {
      EntryLineParts(values[0]);
      assert values[0].name in Names(values);
      assert Names(values[1..]) <= names by {
        forall i | 0 <= i < |values[1..]| ensures values[1..][i].name in Names(values) {
          assert values[1..][i] == values[i + 1];
        }
      }
      KeptEntries(values[1..], names);
    }
  }

  /** How many lines a name has. */
  function LineCount(lines: seq<string>, name: string): nat {
    if lines == [] then 0 else (if Key(lines[0]) == name then 1 else 0) + LineCount(lines[1..], name)
  }

  lemma {:induction false} LineCountConcat(a: seq<string>, b: seq<string>, name: string)
    ensures LineCount(a + b, name) == LineCount(a, name) + LineCount(b, name)
  {
    if a == [] {
      assert a + b == b;
    } else {
      assert (a + b)[1..] == a[1..] + b;
      LineCountConcat(a[1..], b, name);
    }
  }

  lemma {:induction false} LineCountKept(lines: seq<string>, names: set<string>, name: string)
    requires name in names
    ensures LineCount(Kept(lines, names), name) == 0
  {
    if lines != [] {
      LineCountKept(lines[1..], names, name);
      var rest := Kept(lines[1..], names);
      assert [] + rest == rest;
      assert ([lines[0]] + rest)[1..] == rest;
    }
  }

  lemma {:induction false} LineCountEntries(values: seq<Entry>, name: string)
    requires PlainNames(values) && IsDict(values)
    ensures LineCount(EntryLines(values), name) == if name in Names(values) then 1 else 0
  {
    if values != [] {
      EntryLineParts(values[0]);
      LineCountEntries(values[1..], name);
      assert forall i :: 0 < i < |values| ==> values[i] == values[1..][i - 1];
      assert Names(values) == {values[0].name} + Names(values[1..]);
    }
  }

  /** Duplicates of a saved name collapse to a single line. */
  lemma SavedNamesHaveOneLine(text: Option<string>, values: seq<Entry>, i: nat)
    requires PlainNames(values) && IsDict(values) && ValuesBreakFree(values) && i < |values|
    ensures LineCount(LinesOf(Some(Saved(text, values))), values[i].name) == 1
  {
    var name := values[i].name;
    assert name in Names(values);
    SavedLines(text, values);
    LineCountConcat(Kept(LinesOf(text), Names(values)), EntryLines(values), name);
    LineCountKept(LinesOf(text), Names(values), name);
    LineCountEntries(values, name);
  }

  /** Saving the same values again leaves the same text. */
  lemma SavingTwiceIsSavingOnce(text: Option<string>, values: seq<Entry>)
    requires values != [] && PlainNames(values) && ValuesBreakFree(values)
    ensures Saved(Some(Saved(text, values)), values) == Saved(text, values)
  {
    OtherLinesKeepTheirOrder(text, values);
  }

  // ---------- the page's last check cannot fail after a save ----------

  /** A "\n" separates what is before it from what is after it. */
  lemma {:induction false} SplitAtBreak(s: string, rest: string)
    ensures SplitLines(s + "\n" + rest) == SplitLines(s + "\n") + SplitLines(rest)
    decreases |s|
  {
    if !HasBreak(s) {
      assert s[..|s|] == s;
      SplitFirstLine(s, rest);
      SplitFirstLine(s, "");
      assert s + "\n" + "" == s + "\n";
      assert SplitLines("") == [];
      assert [s] + [] == [s];
    } else {
      var t := SeamParts(s, rest);
      var first := [FirstLine(s)];
      if t.Some? {
        SplitAtBreak(t.value, rest);
        Assoc(first, SplitLines(t.value + "\n"), SplitLines(rest));
      } else {
        assert first + [] == first;
      }
    }
  }

  /** The first line of `s` is also the first of `s` with more text; what remains is a shorter such pair. */
  lemma SeamParts(s: string, rest: string) returns (t: Option<string>)
    requires HasBreak(s)
    ensures SplitLines(s + "\n") == [FirstLine(s)] + (if t.Some? then SplitLines(t.value + "\n") else [])
    ensures SplitLines(s + "\n" + rest)
         == [FirstLine(s)] + SplitLines(if t.Some? then t.value + "\n" + rest else rest)
    ensures t.Some? ==> |t.value| < |s|
  {
    var n := LineEnd(s);
    var short, long := s + "\n", s + "\n" + rest;
    assert short[..n] == s[..n] && long[..n] == s[..n];
    LineEndIs(short, n);
    LineEndIs(long, n);
    var width := BreakWidth(short, n);
    assert BreakWidth(long, n) == width;
    if n + width <= |s| {
      t := Some(s[n + width..]);
      assert OtherLines(short) == t.value + "\n";
      assert OtherLines(long) == t.value + "\n" + rest;
    } else {
      t := None;
      assert OtherLines(short) == "";
      assert OtherLines(long) == rest;
      assert SplitLines(OtherLines(short)) == [];
    }
  }

  lemma {:induction false} EntryAlwaysPresent(values: seq<Entry>, i: nat)
    requires PlainNames(values) && i < |values|
    ensures Lookup(SplitLines(Unlines(EntryLines(values))), values[i].name).Some?
  {
    var line, rest := values[0].name + "=" + values[0].value, Unlines(EntryLines(values[1..]));
    assert Unlines(EntryLines(values)) == line + "\n" + rest by {
      assert EntryLines(values)[1..] == EntryLines(values[1..]);
    }
    SplitAtBreak(line, rest);
    LookupConcat(SplitLines(line + "\n"), SplitLines(rest), values[i].name);
    if i == 0 {
      FirstLineOfEntry(values[0]);
    } else {
      EntryAlwaysPresent(values[1..], i - 1);
    }
  }

  lemma FirstLineOfEntry(e: Entry)
    requires '=' !in e.name && BreakFree(e.name)
    ensures Lookup(SplitLines(e.name + "=" + e.value + "\n"), e.name).Some?
  {
    var s := e.name + "=" + e.value + "\n";
    var n := LineEnd(s);
    assert s[|e.name|] == '=' && forall k :: 0 <= k < |e.name| ==> s[k] == e.name[k];
    assert n > |e.name|;
    assert s[..n] == e.name + "=" + s[|e.name| + 1..n];
    PartitionAt(e.name, '=', s[|e.name| + 1..n]);
  }

  /** Right after a save the page's check of its names passes, line breaks or not: it reads names only. */
  lemma SavedCheckAlwaysPasses(text: Option<string>, values: seq<Entry>, names: seq<string>)
    requires PlainNames(values) && forall n :: n in names ==> n in Names(values)
    ensures SavedCheck(Some(Saved(text, values)), true, names)
  {
    forall n | n in names ensures Read(Some(Saved(text, values)), n).Some? {
      var i :| 0 <= i < |values| && values[i].name == n;
      SavedNameReadsFresh(text, values, i);
      EntryAlwaysPresent(values, i);
    }
  }

  // ---------- what a saved name reads, whatever the values ----------

  /** What the lines of one entry alone say about a name: its value's later lines may name anything. */
  function EntrySays(e: Entry, name: string): Option<string> {
    Lookup(SplitLines(e.name + "=" + e.value + "\n"), name)
  }

  function FirstSays(values: seq<Entry>, name: string): Option<string> {
    if values == [] then None
    else if EntrySays(values[0], name).Some? then EntrySays(values[0], name)
    else FirstSays(values[1..], name)
  }

  lemma {:induction false} AppendedSays(values: seq<Entry>, name: string)
    ensures Lookup(SplitLines(Unlines(EntryLines(values))), name) == FirstSays(values, name)
  {
    if values == [] {
      assert SplitLines("") == [];
    } else {
      var line, rest := values[0].name + "=" + values[0].value, Unlines(EntryLines(values[1..]));
      assert EntryLines(values)[1..] == EntryLines(values[1..]);
      assert Unlines(EntryLines(values)) == line + "\n" + rest;
      SplitAtBreak(line, rest);
      LookupConcat(SplitLines(line + "\n"), SplitLines(rest), name);
      AppendedSays(values[1..], name);
    }
  }

  /**
   A saved name reads what the first entry says about it that says anything, its own or an earlier one's:
   a value with a line break may speak for a name saved after it.
   */
  lemma SavedNameReadsExactly(text: Option<string>, values: seq<Entry>, i: nat)
    requires i < |values|
    ensures Read(Some(Saved(text, values)), values[i].name) == FirstSays(values, values[i].name)
  {
    SavedNameReadsFresh(text, values, i);
    AppendedSays(values, values[i].name);
  }

  /** Every name reads what the saved entries say about it. */
  ghost predicate ReadsAsSaid(text: Option<string>, values: seq<Entry>) {
    forall i :: 0 <= i < |values| ==> Read(text, values[i].name) == FirstSays(values, values[i].name)
  }

  lemma FirstLineOf(e: Entry)
    requires BreakFree(e.name)
    ensures var s := e.name + "=" + e.value + "\n";
            HasBreak(s) && FirstLine(s) == e.name + "=" + FirstLine(e.value)
  {
    var s, n := e.name + "=" + e.value + "\n", |e.name| + 1 + LineEnd(e.value);
    assert s[..n] == e.name + "=" + FirstLine(e.value);
    LineEndIs(s, n);
  }

  /** About its own name an entry says the value's first line. */
  lemma OwnNameSays(e: Entry)
    requires '=' !in e.name && BreakFree(e.name)
    ensures EntrySays(e, e.name) == Some(FirstLine(e.value))
  {
    FirstLineOf(e);
    EntryLineParts(Entry(e.name, FirstLine(e.value)));
  }

  lemma {:induction false} FirstSaysConcat(a: seq<Entry>, b: seq<Entry>, name: string)
    ensures FirstSays(a + b, name) == if FirstSays(a, name).Some? then FirstSays(a, name) else FirstSays(b, name)
  {
    if a == [] {
      assert a + b == b;
    } else {
      assert (a + b)[1..] == a[1..] + b && (a + b)[0] == a[0];
      FirstSaysConcat(a[1..], b, name);
    }
  }

  /** What the values saved before the i-th say about its name: None when they leave it alone. */
  function SaidBefore(values: seq<Entry>, i: nat): Option<string>
    requires i < |values|
  {
    FirstSays(values[..i], values[i].name)
  }

  /** An earlier value speaks for the i-th name, and says something else than the i-th value's first line. */
  predicate Overridden(values: seq<Entry>, i: nat)
    requires i < |values|
  {
    SaidBefore(values, i).Some? && SaidBefore(values, i).value != FirstLine(values[i].value)
  }

  /** The earlier values have the first word; after them the i-th value's own first line counts. */
  function SavedSays(values: seq<Entry>, i: nat): Option<string>
    requires i < |values|
  {
    if SaidBefore(values, i).Some? then SaidBefore(values, i) else Some(FirstLine(values[i].value))
  }

  lemma SaysBeforeOrOwn(values: seq<Entry>, i: nat)
    requires PlainNames(values) && i < |values|
    ensures FirstSays(values, values[i].name) == SavedSays(values, i)
  {
    var rest := values[i..];
    assert values == values[..i] + rest && rest[0] == values[i];
    FirstSaysConcat(values[..i], rest, values[i].name);
    OwnNameSays(values[i]);
  }

  /** A saved name reads its own value's first line exactly when no earlier value overrides it. */
  lemma ReadsFirstLineIff(text: Option<string>, values: seq<Entry>, i: nat)
    requires PlainNames(values) && i < |values|
    ensures Read(Some(Saved(text, values)), values[i].name) == Some(FirstLine(values[i].value))
            <==> !Overridden(values, i)
  {
    SavedNameReadsExactly(text, values, i);
    SaysBeforeOrOwn(values, i);
  }

  lemma BreakFreeSaysItsOwn(e: Entry, name: string)
    requires '=' !in e.name && BreakFree(e.name) && BreakFree(e.value) && name != e.name
    ensures EntrySays(e, name) == None
  {
    var line := e.name + "=" + e.value;
    SplitFirstLine(line, "");
    assert line + "\n" + "" == line + "\n";
    assert SplitLines("") == [] && [line] + [] == [line];
    EntryLineParts(e);
    assert [line][1..] == [] && Lookup([], name) == None;
  }

  lemma {:induction false} BreakFreeSayNothingElse(values: seq<Entry>, name: string)
    requires PlainNames(values) && ValuesBreakFree(values) && name !in Names(values)
    ensures FirstSays(values, name) == None
  {
    if values != [] {
      var rest := values[1..];
      assert values[0].name in Names(values);
      assert Names(rest) <= Names(values) by {
        forall i | 0 <= i < |rest| ensures rest[i].name in Names(values) {
          assert rest[i] == values[i + 1];
        }
      }
      BreakFreeSaysItsOwn(values[0], name);
      BreakFreeSayNothingElse(rest, name);
    }
  }

  /** Values without line breaks never override one another. */
  lemma BreakFreeNeverOverrides(values: seq<Entry>, i: nat)
    requires PlainNames(values) && IsDict(values) && ValuesBreakFree(values) && i < |values|
    ensures !Overridden(values, i)
  {
    var before := values[..i];
    assert values[i].name !in Names(before);
    BreakFreeSayNothingElse(before, values[i].name);
  }

  /** A name that is not saved reads as before exactly when it had a line, or no value speaks for it. */
  lemma OtherNameReadsIff(text: Option<string>, values: seq<Entry>, name: string)
    requires values != [] && name !in Names(values)
    ensures Read(Some(Saved(text, values)), name) == Read(text, name)
            <==> Read(text, name).Some? || FirstSays(values, name) == None
  {
    SavedSplits(text, values);
    LookupKept(LinesOf(text), Names(values), name);
    LookupConcat(Kept(LinesOf(text), Names(values)), SplitLines(Unlines(EntryLines(values))), name);
    AppendedSays(values, name);
  }

  /** With break-free values every other name, present or not, reads as before. */
  lemma OtherNamesUnchanged(text: Option<string>, values: seq<Entry>, name: string)
    requires values != [] && PlainNames(values) && ValuesBreakFree(values) && name !in Names(values)
    ensures Read(Some(Saved(text, values)), name) == Read(text, name)
  {
    BreakFreeSayNothingElse(values, name);
    OtherNameReadsIff(text, values, name);
  }

  lemma TwoLines(one: string, two: string)
    requires BreakFree(one) && BreakFree(two)
    ensures SplitLines(one + "\n" + (two + "\n")) == [one, two]
  {
    SplitFirstLine(two, "");
    assert two + "\n" + "" == two + "\n";
    assert SplitLines("") == [];
    SplitFirstLine(one, two + "\n");
    assert [two] + [] == [two];
  }

  lemma LookupTwo(one: string, two: string, name: string)
    ensures Lookup([one, two], name)
         == if Key(one) == name then Some(After(one, '=')) else if Key(two) == name then Some(After(two, '=')) else None
  {
    var rest: seq<string> := [two];
    assert [one, two][1..] == rest && rest[1..] == [];
    assert Lookup([], name) == None;
    assert Lookup(rest, name) == if Key(two) == name then Some(After(two, '=')) else None;
  }

  lemma EntryLineBreakFree(e: Entry)
    requires BreakFree(e.name) && BreakFree(e.value)
    ensures BreakFree(e.name + "=" + e.value)
  {
  }

  lemma BrokenEntryLines(name: string, first: string, other: string, value: string)
    ensures name + "=" + (first + "\n" + other + "=" + value) + "\n"
         == (name + "=" + first) + "\n" + ((other + "=" + value) + "\n")
  {
  }

  /** A value whose second line reads like another name's: the file then says both. */
  lemma EntryWithBreakSays(name: string, first: string, other: string, value: string)
    requires '=' !in name && BreakFree(name) && BreakFree(first)
    requires '=' !in other && BreakFree(other) && BreakFree(value)
    ensures var e := Entry(name, first + "\n" + other + "=" + value);
            EntrySays(e, name) == Some(first) && EntrySays(e, other) == Some(if name == other then first else value)
  {
    var one, two := Entry(name, first), Entry(other, value);
    EntryLineBreakFree(one);
    EntryLineBreakFree(two);
    EntryLineParts(one);
    EntryLineParts(two);
    BrokenEntryLines(name, first, other, value);
    TwoLines(name + "=" + first, other + "=" + value);
    LookupTwo(name + "=" + first, other + "=" + value, name);
    LookupTwo(name + "=" + first, other + "=" + value, other);
  }

  /** A value with a line break: the check passes, and the next container reads half the value. */
  lemma BrokenValueExample()
    ensures var values := [Entry("K", "a\nb")];
            var after := Some(Saved(None, values));
            SavedCheck(after, true, ["K"]) && Read(after, "K") != Some("a\nb")
  {
    var values := [Entry("K", "a\nb")];
    assert values[0].name in Names(values);
    SavedCheckAlwaysPasses(None, values, ["K"]);
    ReadIsBreakFree(Some(Saved(None, values)), "K");
    assert !BreakFree("a\nb") by { assert IsBreak("a\nb"[1]); }
  }

  // ---------- the file itself ----------

  /** The file on disk: its text (None: missing) and whether only root may read it. */
  class SecretsFile {
    var text: Option<string>
    var rootOnly: bool

    constructor (text: Option<string>, rootOnly: bool)
      ensures this.text == text && this.rootOnly == rootOnly
    {
      this.text, this.rootOnly := text, rootOnly;
    }

    /** One fresh line per name of `values`, after the lines of all other names; only root may read the file. */
    method SaveSecrets(values: seq<Entry>)
      modifies this
      ensures text == Some(Saved(old(text), values)) && rootOnly
    {
      var lines := Kept(LinesOf(text), Names(values)) + EntryLines(values);
      rootOnly := true;
      text := Some(Join(lines, "\n") + "\n");
    }

    /** The value on the first line of this name; None without such a line, or without a file. */
    method ReadSecret(name: string) returns (r: Option<string>)
      ensures r == Read(text, name)
    {
      if text.None? {
        return None;
      }
      var lines := SplitLines(text.value);
      var i := 0;
      while i < |lines|
        invariant 0 <= i <= |lines|
        invariant Lookup(lines[i..], name) == Lookup(lines, name)
      {
        if Key(lines[i]) == name {
          return Some(After(lines[i], '='));
        }
        i := i + 1;
      }
      return None;
    }
  }
}
