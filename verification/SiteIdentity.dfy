/**
 A site's names: the slug its topics and templates carry, the slug of its portal page, and the DNS
 label its box is reached at (section 2.3.1 of RFC 1035, section 2.1 of RFC 1123).
 */
module SiteIdentity {
  import opened Wrappers
  import opened Text

  // ---------- lower case ----------

  function LowerAscii(c: char): char {
    if 'A' <= c <= 'Z' then (c as int + 32) as char else c
  }

  /** `name.lower()`; `others` lowers a character outside ASCII, which may yield ASCII letters. */
  function Lower(others: char -> string, name: string): string {
    if name == "" then "" else
      (if name[0] as int < 128 then [LowerAscii(name[0])] else others(name[0])) + Lower(others, name[1..])
  }

  // ---------- words ----------

  predicate IsSlugChar(c: char) {
    'a' <= c <= 'z' || '0' <= c <= '9'
  }

  /** Lower case moves a capital to the letter as far from 'a' as it is from 'A', and leaves the rest. */
  lemma LowerAsciiIs(c: char)
    ensures 'A' <= c <= 'Z' ==> LowerAscii(c) as int - 'a' as int == c as int - 'A' as int
    ensures c < 'A' || c > 'Z' ==> LowerAscii(c) == c
  {
  }

  lemma SlugCharsAre(c: char)
    ensures IsSlugChar(c) <==> c in "abcdefghijklmnopqrstuvwxyz" || c in "0123456789"
  {
    var letters, digits := "abcdefghijklmnopqrstuvwxyz", "0123456789";
    assert forall i :: 0 <= i < 26 ==> letters[i] as int == 'a' as int + i;
    assert forall i :: 0 <= i < 10 ==> digits[i] as int == '0' as int + i;
    if 'a' <= c <= 'z' {
      assert letters[c as int - 'a' as int] == c;
    }
    if '0' <= c <= '9' {
      assert digits[c as int - '0' as int] == c;
    }
  }

  function RunLength(ok: char -> bool, s: string): (n: nat)
    ensures n <= |s|
    ensures forall i :: 0 <= i < n ==> ok(s[i])
    ensures n < |s| ==> !ok(s[n])
  {
    if s == "" || !ok(s[0]) then 0 else 1 + RunLength(ok, s[1..])
  }

  /** The maximal runs of `ok` characters, in order. */
  function Words(ok: char -> bool, s: string): seq<string>
    decreases |s|
  {
    if s == "" then []
    else if !ok(s[0]) then Words(ok, s[1..])
    else
      var n := RunLength(ok, s);
      [s[..n]] + Words(ok, s[n..])
  }

  /** Words of slug characters. */
  ghost predicate GoodWords(words: seq<string>) {
    forall k :: 0 <= k < |words| ==> words[k] != "" && forall i :: 0 <= i < |words[k]| ==> IsSlugChar(words[k][i])
  }

  predicate HasSlugChar(s: string) {
    exists i :: 0 <= i < |s| && IsSlugChar(s[i])
  }

  lemma {:induction false} WordsAreGood(s: string)
    ensures GoodWords(Words(IsSlugChar, s))
    ensures Words(IsSlugChar, s) != [] <==> HasSlugChar(s)
    decreases |s|
  {
    if s != "" {
      if IsSlugChar(s[0]) {
        WordsAreGood(s[RunLength(IsSlugChar, s)..]);
      } else {
        WordsAreGood(s[1..]);
        OthersSkip(s);
      }
    }
  }

  lemma OthersSkip(s: string)
    requires s != "" && !IsSlugChar(s[0])
    ensures HasSlugChar(s) <==> HasSlugChar(s[1..])
  {
    if i :| 0 <= i < |s| && IsSlugChar(s[i]) {
      assert IsSlugChar(s[1..][i - 1]);
    }
    if i :| 0 <= i < |s[1..]| && IsSlugChar(s[1..][i]) {
      assert IsSlugChar(s[i + 1]);
    }
  }

  // ---------- the site slug ----------

  /** Replace each run of other characters by one "_"; `inRun`: the run has already been replaced. */
  function Substituted(s: string, inRun: bool): string {
    if s == "" then ""
    else if IsSlugChar(s[0]) then [s[0]] + Substituted(s[1..], false)
    else (if inRun then "" else "_") + Substituted(s[1..], true)
  }

  function StripLeft(s: string, c: char): string {
    if s != "" && s[0] == c then StripLeft(s[1..], c) else s
  }

  function StripRight(s: string, c: char): string {
    if s != "" && s[|s| - 1] == c then StripRight(s[..|s| - 1], c) else s
  }

  function StripChar(s: string, c: char): string {
    StripRight(StripLeft(s, c), c)
  }

  function SlugOf(lowered: string): string {
    StripChar(Substituted(lowered, false), '_')
  }

  /** `_slugify_site_id`; None where it raises. */
  function SiteSlug(others: char -> string, name: string): Option<string> {
    var slug := SlugOf(Lower(others, name));
    if slug == "" then None else Some(slug)
  }

  lemma {:induction false} SubstitutedRun(s: string, n: nat)
    requires n <= |s| && forall i :: 0 <= i < n ==> IsSlugChar(s[i])
    ensures Substituted(s, false) == s[..n] + Substituted(s[n..], false)
    ensures n > 0 ==> Substituted(s, true) == s[..n] + Substituted(s[n..], false)
  {
    if n > 0 {
      SubstitutedRun(s[1..], n - 1);
      assert s[1..][n - 1..] == s[n..];
      assert s[..n] == [s[0]] + s[1..][..n - 1];
    }
  }

  predicate EndsOther(s: string) {
    s != "" && !IsSlugChar(s[|s| - 1])
  }

  /** What follows the joined words: one "_" when the text ends in other characters. */
  function Tail(s: string): string {
    if Words(IsSlugChar, s) != [] && EndsOther(s) then "_" else ""
  }

  lemma {:induction false} SubstitutedIsJoin(s: string)
    ensures Substituted(s, true) == Join(Words(IsSlugChar, s), "_") + Tail(s)
    decreases |s|
  {
    if s == "" {
    } else if !IsSlugChar(s[0]) {
      SubstitutedIsJoin(s[1..]);
    } else {
      var n := RunLength(IsSlugChar, s);
      var rest := s[n..];
      SubstitutedRun(s, n);
      SubstitutedIsJoin(rest);
      SubstitutedAfterRun(s, n);
    }
  }

  lemma WordsAfterRun(s: string, n: nat)
    requires s != "" && IsSlugChar(s[0]) && n == RunLength(IsSlugChar, s)
    ensures Join(Words(IsSlugChar, s), "_")
         == s[..n] + if Words(IsSlugChar, s[n..]) == [] then "" else "_" + Join(Words(IsSlugChar, s[n..]), "_")
  {
    var rest := Words(IsSlugChar, s[n..]);
    assert ([s[..n]] + rest)[1..] == rest;
    if rest != [] {
      Assoc(s[..n], "_", Join(rest, "_"));
    } else {
      assert s[..n] + "" == s[..n];
    }
  }

  lemma TailAfterRun(s: string, n: nat)
    requires s != "" && IsSlugChar(s[0]) && n == RunLength(IsSlugChar, s)
    ensures Tail(s) == if s[n..] != "" && Words(IsSlugChar, s[n..]) == [] then "_" else Tail(s[n..])
  {
    var rest := s[n..];
    WordsAreGood(rest);
    assert rest != "" ==> rest[|rest| - 1] == s[|s| - 1];
  }

  /** One word, then what the rest becomes. */
  lemma SubstitutedAfterRun(s: string, n: nat)
    requires s != "" && IsSlugChar(s[0]) && n == RunLength(IsSlugChar, s)
    requires Substituted(s, true) == s[..n] + Substituted(s[n..], false)
    requires Substituted(s[n..], true) == Join(Words(IsSlugChar, s[n..]), "_") + Tail(s[n..])
    ensures Substituted(s, true) == Join(Words(IsSlugChar, s), "_") + Tail(s)
  {
    WordsAfterRun(s, n);
    TailAfterRun(s, n);
    SubstitutedRest(s[n..], s[..n]);
  }

  lemma Underscored(word: string, joined: string, tail: string)
    ensures word + ("_" + (joined + tail)) == word + ("_" + joined) + tail
  {
  }

  lemma RunStarts(rest: string)
    requires rest != "" && !IsSlugChar(rest[0])
    ensures Substituted(rest, false) == "_" + Substituted(rest, true)
  {
  }

  lemma NoWordsNothing(rest: string)
    requires Words(IsSlugChar, rest) == []
    ensures Join(Words(IsSlugChar, rest), "_") + Tail(rest) == ""
  {
  }

  lemma SubstitutedRest(rest: string, word: string)
    requires rest != "" ==> !IsSlugChar(rest[0])
    requires Substituted(rest, true) == Join(Words(IsSlugChar, rest), "_") + Tail(rest)
    ensures word + Substituted(rest, false)
         == word + (if Words(IsSlugChar, rest) == [] then "" else "_" + Join(Words(IsSlugChar, rest), "_"))
            + if rest != "" && Words(IsSlugChar, rest) == [] then "_" else Tail(rest)
  {
    if rest != "" {
      RunStarts(rest);
      if Words(IsSlugChar, rest) == [] {
        NoWordsNothing(rest);
      } else {
        Underscored(word, Join(Words(IsSlugChar, rest), "_"), Tail(rest));
      }
    }
  }

  /** Slug characters, single underscores between them, none at the ends. */
  predicate GoodSlug(s: string, sep: char) {
    && s != "" && IsSlugChar(s[0]) && IsSlugChar(s[|s| - 1])
    && (forall i :: 0 <= i < |s| ==> IsSlugChar(s[i]) || s[i] == sep)
    && (forall i :: 0 <= i < |s| - 1 ==> IsSlugChar(s[i]) || IsSlugChar(s[i + 1]))
  }

  lemma {:induction false} JoinIsGood(words: seq<string>, sep: char)
    requires GoodWords(words) && words != []
    ensures GoodSlug(Join(words, [sep]), sep)
  {
    if |words| > 1 {
      JoinIsGood(words[1..], sep);
      GoodAround(words[0], sep, Join(words[1..], [sep]));
    }
  }

  lemma GoodAround(word: string, sep: char, rest: string)
    requires word != "" && (forall i :: 0 <= i < |word| ==> IsSlugChar(word[i])) && GoodSlug(rest, sep)
    ensures GoodSlug(word + [sep] + rest, sep)
  {
    var s := word + [sep] + rest;
    forall i | 0 <= i < |s| - 1 ensures IsSlugChar(s[i]) || IsSlugChar(s[i + 1]) {
      if i > |word| {
        assert s[i] == rest[i - |word| - 1] && s[i + 1] == rest[i - |word|];
      }
    }
    assert s[|s| - 1] == rest[|rest| - 1];
  }

  lemma StripLeftOf(before: string, t: string, c: char)
    requires (before == "" || before == [c]) && t != "" && t[0] != c
    ensures StripLeft(before + t, c) == t
  {
    assert StripLeft(t, c) == t;
    if before == "" {
      assert before + t == t;
    } else {
      assert (before + t)[1..] == t;
    }
  }

  lemma StripRightOf(s: string, after: string, c: char)
    requires (after == "" || after == [c]) && s != "" && s[|s| - 1] != c
    ensures StripRight(s + after, c) == s
  {
    assert StripRight(s, c) == s;
    if after == "" {
      assert s + after == s;
    } else {
      assert (s + after)[..|s|] == s;
    }
  }

  lemma StripAround(before: string, s: string, after: string, c: char)
    requires before == "" || before == [c]
    requires after == "" || after == [c]
    requires s != "" && s[0] != c && s[|s| - 1] != c
    ensures StripChar(before + s + after, c) == s
  {
    Assoc(before, s, after);
    StripLeftOf(before, s + after, c);
    StripRightOf(s, after, c);
  }

  /** The slug is the words joined by "_". */
  lemma SlugIsJoin(lowered: string)
    ensures SlugOf(lowered) == Join(Words(IsSlugChar, lowered), "_")
  {
    var words := Words(IsSlugChar, lowered);
    SubstitutedIsJoin(lowered);
    var before := if lowered != "" && !IsSlugChar(lowered[0]) then "_" else "";
    assert Substituted(lowered, false) == before + Substituted(lowered, true);
    if words == [] {
      assert Join(words, "_") + Tail(lowered) == "";
      assert Substituted(lowered, false) == before;
      assert StripChar("_", '_') == "" && StripChar("", '_') == "";
    } else {
      WordsAreGood(lowered);
      JoinIsGood(words, '_');
      Assoc(before, Join(words, "_"), Tail(lowered));
      StripAround(before, Join(words, "_"), Tail(lowered), '_');
    }
  }

  /** A name has a slug exactly when its lower case has a letter or digit of ASCII; the slug is well formed. */
  lemma SlugWhenAndHow(others: char -> string, name: string)
    ensures SiteSlug(others, name).Some? <==> HasSlugChar(Lower(others, name))
    ensures SiteSlug(others, name).Some? ==> GoodSlug(SiteSlug(others, name).value, '_')
  {
    var s := Lower(others, name);
    SlugIsJoin(s);
    WordsAreGood(s);
    if Words(IsSlugChar, s) != [] {
      JoinIsGood(Words(IsSlugChar, s), '_');
    }
  }

  lemma {:induction false} LowerKeeps(others: char -> string, s: string)
    requires forall i :: 0 <= i < |s| ==> IsSlugChar(s[i]) || s[i] == '_'
    ensures Lower(others, s) == s
  {
    if s != "" {
      LowerKeeps(others, s[1..]);
      assert [s[0]] + s[1..] == s;
    }
  }

  lemma {:induction false} SubstitutedKeeps(s: string)
    requires forall i :: 0 <= i < |s| ==> IsSlugChar(s[i]) || s[i] == '_'
    requires forall i :: 0 <= i < |s| - 1 ==> IsSlugChar(s[i]) || IsSlugChar(s[i + 1])
    ensures Substituted(s, false) == s
    ensures s == "" || IsSlugChar(s[0]) ==> Substituted(s, true) == s
  {
    if s != "" {
      SubstitutedKeeps(s[1..]);
      assert [s[0]] + s[1..] == s;
    }
  }

  /** The slug of a slug is itself. */
  lemma SlugIsIdempotent(others: char -> string, name: string)
    requires SiteSlug(others, name).Some?
    ensures SiteSlug(others, SiteSlug(others, name).value) == SiteSlug(others, name)
  {
    SlugWhenAndHow(others, name);
    var slug := SiteSlug(others, name).value;
    LowerKeeps(others, slug);
    SubstitutedKeeps(slug);
    StripAround("", slug, "", '_');
    assert "" + slug + "" == slug;
  }

  // ---------- the portal's slug ----------

  /** Every character that is not alphanumeric becomes a space. */
  function Spaced(isAlnum: char -> bool, s: string): string {
    if s == "" then "" else [if isAlnum(s[0]) then s[0] else ' '] + Spaced(isAlnum, s[1..])
  }

  predicate NotSpace(c: char) {
    !IsSpace(c)
  }

  /** The manifest's `_slugify`; `isAlnum` is Python's, which knows all of Unicode. */
  function PortalSlug(others: char -> string, isAlnum: char -> bool, name: string): string {
    Join(Words(NotSpace, Spaced(isAlnum, Lower(others, name))), "-")
  }

  ghost predicate AsciiOnly(s: string) {
    forall i :: 0 <= i < |s| ==> s[i] as int < 128
  }

  /** On lower-case ASCII, `isalnum` means a slug character. */
  ghost predicate AlnumOnAscii(isAlnum: char -> bool) {
    forall c: char :: c as int < 128 && !('A' <= c <= 'Z') ==> (isAlnum(c) <==> IsSlugChar(c))
  }

  ghost predicate LoweredAscii(s: string) {
    forall i :: 0 <= i < |s| ==> s[i] as int < 128 && !('A' <= s[i] <= 'Z')
  }

  lemma {:induction false} LowerOfAscii(others: char -> string, name: string)
    requires AsciiOnly(name)
    ensures LoweredAscii(Lower(others, name))
  {
    if name != "" {
      LowerOfAscii(others, name[1..]);
    }
  }

  lemma {:induction false} SpacedAt(isAlnum: char -> bool, s: string)
    ensures |Spaced(isAlnum, s)| == |s|
    ensures forall i :: 0 <= i < |s| ==> Spaced(isAlnum, s)[i] == if isAlnum(s[i]) then s[i] else ' '
  {
    if s != "" {
      SpacedAt(isAlnum, s[1..]);
    }
  }

  /** The spaced text has the same words as the text itself. */
  lemma {:induction false} SameWords(s: string, t: string)
    requires |s| == |t|
    requires forall i :: 0 <= i < |s| ==> t[i] == if IsSlugChar(s[i]) then s[i] else ' '
    ensures Words(NotSpace, t) == Words(IsSlugChar, s)
    decreases |s|
  {
    if s != "" {
      if IsSlugChar(s[0]) {
        var n := RunLength(IsSlugChar, s);
        SameRun(s, t);
        assert t[..n] == s[..n];
        SameWords(s[n..], t[n..]);
      } else {
        SameWords(s[1..], t[1..]);
      }
    }
  }

  lemma {:induction false} SameRun(s: string, t: string)
    requires |s| == |t|
    requires forall i :: 0 <= i < |s| ==> t[i] == if IsSlugChar(s[i]) then s[i] else ' '
    ensures RunLength(NotSpace, t) == RunLength(IsSlugChar, s)
  {
    if s != "" && IsSlugChar(s[0]) {
      SameRun(s[1..], t[1..]);
    }
  }

  lemma {:induction false} ReplaceMaps(s: string, c: char, d: char)
    ensures |Replace(s, [c], [d])| == |s|
    ensures forall i :: 0 <= i < |s| ==> Replace(s, [c], [d])[i] == if s[i] == c then d else s[i]
  {
    if s != "" {
      ReplaceCharHead(s, c, [d]);
      ReplaceMaps(s[1..], c, d);
    }
  }

  lemma {:induction false} JoinHyphenated(words: seq<string>)
    requires GoodWords(words)
    ensures Replace(Join(words, "_"), "_", "-") == Join(words, "-")
  {
    if words != [] {
      var word := words[0];
      ReplaceMaps(word, '_', '-');
      assert Replace(word, "_", "-") == word;
      if |words| > 1 {
        JoinHyphenated(words[1..]);
        ReplaceCharConcat(word + "_", Join(words[1..], "_"), '_', "-");
        ReplaceCharConcat(word, "_", '_', "-");
        ReplaceWhole("_", "-");
      }
    }
  }

  /** Every alphanumeric character of the text is one the site slug keeps. */
  ghost predicate OnlySlugAlnums(isAlnum: char -> bool, s: string) {
    forall i :: 0 <= i < |s| && isAlnum(s[i]) ==> IsSlugChar(s[i])
  }

  /** What is true of Python's `isalnum`: ASCII letters and digits are, white space and hyphens are not. */
  ghost predicate PythonAlnum(isAlnum: char -> bool) {
    forall c: char :: (IsSlugChar(c) ==> isAlnum(c)) && (isAlnum(c) ==> !IsSpace(c) && c != '-')
  }

  /** The slugs agree whenever spacing out what is not alphanumeric spaces out what is no slug character. */
  lemma SlugsAgreeWhenSpacedAlike(isAlnum: char -> bool, s: string)
    requires forall i :: 0 <= i < |s| ==> (isAlnum(s[i]) <==> IsSlugChar(s[i]))
    ensures Join(Words(NotSpace, Spaced(isAlnum, s)), "-") == Replace(SlugOf(s), "_", "-")
  {
    SpacedAt(isAlnum, s);
    SameWords(s, Spaced(isAlnum, s));
    SlugIsJoin(s);
    WordsAreGood(s);
    JoinHyphenated(Words(IsSlugChar, s));
  }

  /** For ASCII names the two slugs say the same, with hyphens for underscores. */
  lemma SlugsAgreeOnAscii(others: char -> string, isAlnum: char -> bool, name: string)
    requires AsciiOnly(name) && AlnumOnAscii(isAlnum)
    ensures PortalSlug(others, isAlnum, name) == Replace(SlugOf(Lower(others, name)), "_", "-")
  {
    LowerOfAscii(others, name);
    SlugsAgreeWhenSpacedAlike(isAlnum, Lower(others, name));
  }

  ghost predicate InWords(words: seq<string>, c: char) {
    exists k :: 0 <= k < |words| && c in words[k]
  }

  /** A character of a word is in one of the words. */
  lemma {:induction false} WordsKeep(ok: char -> bool, s: string, i: nat)
    requires i < |s| && ok(s[i])
    ensures InWords(Words(ok, s), s[i])
    decreases |s|
  {
    var words := Words(ok, s);
    if !ok(s[0]) {
      WordsKeep(ok, s[1..], i - 1);
    } else {
      var n := RunLength(ok, s);
      if i < n {
        assert words[0] == s[..n] && s[..n][i] == s[i];
      } else {
        WordsKeep(ok, s[n..], i - n);
        var k :| 0 <= k < |Words(ok, s[n..])| && s[i] in Words(ok, s[n..])[k];
        assert words[k + 1] == Words(ok, s[n..])[k];
      }
    }
  }

  lemma {:induction false} JoinKeeps(words: seq<string>, sep: string, c: char)
    requires InWords(words, c)
    ensures c in Join(words, sep)
  {
    var k :| 0 <= k < |words| && c in words[k];
    if |words| > 1 && k > 0 {
      assert words[1..][k - 1] == words[k];
      JoinKeeps(words[1..], sep, c);
    }
  }

  /** The site slug with hyphens has nothing but slug characters and hyphens. */
  lemma HyphenatedSlugChars(s: string)
    ensures forall c :: c in Replace(SlugOf(s), "_", "-") ==> IsSlugChar(c) || c == '-'
  {
    SlugIsJoin(s);
    WordsAreGood(s);
    if Words(IsSlugChar, s) != [] {
      JoinIsGood(Words(IsSlugChar, s), '_');
      ReplaceMaps(SlugOf(s), '_', '-');
    }
  }

  /** An alphanumeric character outside [a-z0-9] is in the portal's slug and not in the site's. */
  lemma ForeignAlnumParts(isAlnum: char -> bool, s: string, i: nat)
    requires PythonAlnum(isAlnum) && i < |s| && isAlnum(s[i]) && !IsSlugChar(s[i])
    ensures Join(Words(NotSpace, Spaced(isAlnum, s)), "-") != Replace(SlugOf(s), "_", "-")
  {
    SpacedAt(isAlnum, s);
    WordsKeep(NotSpace, Spaced(isAlnum, s), i);
    JoinKeeps(Words(NotSpace, Spaced(isAlnum, s)), "-", s[i]);
    HyphenatedSlugChars(s);
  }

  /** The two slugs agree exactly when every alphanumeric character of the lower-cased name is in [a-z0-9]. */
  lemma SlugsAgreeIff(others: char -> string, isAlnum: char -> bool, name: string)
    requires PythonAlnum(isAlnum)
    ensures PortalSlug(others, isAlnum, name) == Replace(SlugOf(Lower(others, name)), "_", "-")
            <==> OnlySlugAlnums(isAlnum, Lower(others, name))
  {
    var s := Lower(others, name);
    if OnlySlugAlnums(isAlnum, s) {
      SlugsAgreeWhenSpacedAlike(isAlnum, s);
    } else {
      var i :| 0 <= i < |s| && isAlnum(s[i]) && !IsSlugChar(s[i]);
      ForeignAlnumParts(isAlnum, s, i);
    }
  }

  /** The portal keeps an accented letter that the site slug drops. */
  lemma AccentedLetterParts(others: char -> string, isAlnum: char -> bool)
    requires PythonAlnum(isAlnum) && others('\U{00E9}') == "\U{00E9}" && isAlnum('\U{00E9}')
    ensures PortalSlug(others, isAlnum, "\U{00E9}") != Replace(SlugOf(Lower(others, "\U{00E9}")), "_", "-")
  {
    var name := "\U{00E9}";
    assert name[1..] == "";
    assert Lower(others, name) == name;
    ForeignAlnumParts(isAlnum, name, 0);
  }

  // ---------- the DNS label ----------

  const MAX_LABEL: nat := 63
  const ORDER_PREFIX_LENGTH: nat := 6

  function OrderPrefix(orderId: string): string {
    var hex := Replace(orderId, "-", "");
    if |hex| <= ORDER_PREFIX_LENGTH then hex else hex[..ORDER_PREFIX_LENGTH]
  }

  /** The slug with hyphens, cut to fit. */
  function CutSlug(siteId: string, room: int): string
    requires room >= 0
  {
    var slug := StripChar(Replace(siteId, "_", "-"), '-');
    StripRight(if |slug| <= room then slug else slug[..room], '-')
  }

  function HostLabel(siteId: string, orderId: string): string {
    var suffix := "-" + OrderPrefix(orderId);
    CutSlug(siteId, MAX_LABEL - |suffix|) + suffix
  }

  predicate IsHex(c: char) {
    '0' <= c <= '9' || 'a' <= c <= 'f'
  }

  /** An order id as Python prints a UUID; only where its first hyphen stands matters here. */
  predicate CanonicalUuid(id: string) {
    |id| == 36 && forall i :: 0 <= i < 36 ==> if i in {8, 13, 18, 23} then id[i] == '-' else IsHex(id[i])
  }

  /** Letters, digits and single hyphens, alphanumeric at both ends, at most 63 of them. */
  predicate ValidLabel(s: string) {
    |s| <= 63 && GoodSlug(s, '-')
  }

  lemma {:induction false} RemoveKeepsPrefix(s: string, n: nat)
    requires n <= |s| && '-' !in s[..n]
    ensures |Replace(s, "-", "")| >= n && Replace(s, "-", "")[..n] == s[..n]
  {
    if n > 0 {
      assert s[0] == s[..n][0];
      assert s[1..][..n - 1] == s[..n][1..];
      RemoveKeepsPrefix(s[1..], n - 1);
      ReplaceCharHead(s, '-', "");
    }
  }

  lemma OrderPrefixIs(id: string)
    requires CanonicalUuid(id)
    ensures OrderPrefix(id) == id[..6] && forall i :: 0 <= i < 6 ==> IsHex(id[i])
  {
    assert forall i :: 0 <= i < 6 ==> IsHex(id[i]);
    assert '-' !in id[..6];
    RemoveKeepsPrefix(id, 6);
  }

  lemma Hyphenated(slug: string)
    requires GoodSlug(slug, '_')
    ensures GoodSlug(Replace(slug, "_", "-"), '-')
  {
    ReplaceMaps(slug, '_', '-');
  }

  /** Cutting a hyphenated slug and dropping a hyphen left at the end keeps it well formed. */
  lemma CutIsGood(slug: string, room: int)
    requires GoodSlug(slug, '-') && room >= 1
    ensures var cut := StripRight(if |slug| <= room then slug else slug[..room], '-');
            GoodSlug(cut, '-') && |cut| <= room
  {
    var cut := if |slug| <= room then slug else slug[..room];
    if cut[|cut| - 1] == '-' {
      assert |cut| > 1;
      assert IsSlugChar(slug[|cut| - 2]);
    }
  }

  lemma LabelParts(slug: string, id: string)
    requires GoodSlug(slug, '_') && CanonicalUuid(id)
    ensures HostLabel(slug, id) == CutSlug(slug, 56) + "-" + id[..6]
    ensures GoodSlug(CutSlug(slug, 56), '-') && |CutSlug(slug, 56)| <= 56
  {
    OrderPrefixIs(id);
    Hyphenated(slug);
    var hyphenated := Replace(slug, "_", "-");
    StripAround("", hyphenated, "", '-');
    assert "" + hyphenated + "" == hyphenated;
    CutIsGood(hyphenated, 56);
  }

  /**
   A slug of up to 56 characters is kept whole, with hyphens; a longer one keeps 56 of them, or 55 when the
   56th would be a hyphen.
   */
  lemma CutSlugKeeps(slug: string)
    requires GoodSlug(slug, '_')
    ensures var hyphenated, cut := Replace(slug, "_", "-"), CutSlug(slug, 56);
            && cut <= hyphenated
            && (|hyphenated| <= 56 ==> cut == hyphenated)
            && (|hyphenated| > 56 ==> |cut| == if hyphenated[55] == '-' then 55 else 56)
  {
    var hyphenated := Replace(slug, "_", "-");
    Hyphenated(slug);
    StripAround("", hyphenated, "", '-');
    assert "" + hyphenated + "" == hyphenated;
    if |hyphenated| > 56 {
      CutAt(hyphenated, 56);
    }
  }

  lemma CutAt(slug: string, room: nat)
    requires GoodSlug(slug, '-') && 1 < room < |slug|
    ensures StripRight(slug[..room], '-') == if slug[room - 1] == '-' then slug[..room - 1] else slug[..room]
  {
    if slug[room - 1] == '-' {
      assert IsSlugChar(slug[room - 2]);
      assert slug[..room][..room - 1] == slug[..room - 1];
    }
  }

  lemma GoodThenPrefix(a: string, prefix: string)
    requires GoodSlug(a, '-') && |prefix| == 6 && forall i :: 0 <= i < 6 ==> IsHex(prefix[i])
    ensures GoodSlug(a + "-" + prefix, '-')
  {
    var s := a + "-" + prefix;
    forall i | 0 <= i < |s| - 1 ensures IsSlugChar(s[i]) || IsSlugChar(s[i + 1]) {
      if i < |a| - 1 {
        assert s[i] == a[i] && s[i + 1] == a[i + 1];
      } else if i == |a| - 1 {
        assert s[i] == a[i];
      } else {
        assert s[i + 1] == prefix[i - |a|];
      }
    }
    assert s[|s| - 1] == prefix[5];
  }

  /** For every site with a slug and every order, the label is a valid DNS label ending in the order's prefix. */
  lemma HostLabelIsValid(others: char -> string, name: string, id: string)
    requires SiteSlug(others, name).Some? && CanonicalUuid(id)
    ensures var host := HostLabel(SiteSlug(others, name).value, id);
            && ValidLabel(host) && |host| >= 8
            && host == CutSlug(SiteSlug(others, name).value, 56) + "-" + id[..6]
  {
    var slug := SiteSlug(others, name).value;
    SlugWhenAndHow(others, name);
    LabelParts(slug, id);
    OrderPrefixIs(id);
    GoodThenPrefix(CutSlug(slug, 56), id[..6]);
  }

  /** Two orders share a label exactly when they share the order prefix and the cut slug. */
  lemma LabelsMeetIff(a: string, id: string, b: string, other: string)
    requires GoodSlug(a, '_') && GoodSlug(b, '_') && CanonicalUuid(id) && CanonicalUuid(other)
    ensures HostLabel(a, id) == HostLabel(b, other) <==> CutSlug(a, 56) == CutSlug(b, 56) && id[..6] == other[..6]
  {
    LabelParts(a, id);
    LabelParts(b, other);
    var x, y := HostLabel(a, id), HostLabel(b, other);
    assert x[|x| - 6..] == id[..6] && y[|y| - 6..] == other[..6];
    assert x[..|x| - 7] == CutSlug(a, 56) && y[..|y| - 7] == CutSlug(b, 56);
  }
}
