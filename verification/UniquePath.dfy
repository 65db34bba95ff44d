/**
 `unique_path`: a path already taken gets "-2", "-3", ... before its suffix. Paths are read the way
 Python 3.13's PurePosixPath reads them. Archive keys name one S3 object per file with it.
 */
module UniquePath {
  import opened Wrappers
  import opened Text
  import opened Decimal

  // ---------- PurePosixPath ----------

  /** A parsed path: its root ("", "/" or "//") and its parts. */
  datatype Posix = Posix(root: string, parts: seq<string>)

  function RootOf(path: string): (root: string)
    ensures root <= path
  {
    if |path| >= 2 && path[..2] == "//" && (|path| == 2 || path[2] != '/') then "//"
    else if path != "" && path[0] == '/' then "/"
    else ""
  }

  function RealParts(pieces: seq<string>): seq<string> {
    if pieces == [] then []
    else (if pieces[0] == "" || pieces[0] == "." then [] else [pieces[0]]) + RealParts(pieces[1..])
  }

  function Parse(path: string): Posix {
    Posix(RootOf(path), RealParts(Split(path[|RootOf(path)|..], '/')))
  }

  function Show(p: Posix): string {
    if p.root == "" && p.parts == [] then "." else p.root + Join(p.parts, "/")
  }

  /** `rfind(".")`. */
  function LastDot(name: string): (i: int)
    ensures -1 <= i < |name|
  {
    if name == "" then -1
    else if name[|name| - 1] == '.' then |name| - 1
    else LastDot(name[..|name| - 1])
  }

  function Suffix(name: string): string {
    var i := LastDot(name);
    if 0 < i < |name| - 1 then name[i..] else ""
  }

  function Stem(name: string): string {
    var i := LastDot(name);
    if 0 < i < |name| - 1 then name[..i] else name
  }

  /** The path with "-n" put before the suffix of its name. */
  function Numbered(p: Posix, n: nat): string
    requires p.parts != []
  {
    var last := |p.parts| - 1;
    Show(Posix(p.root, p.parts[..last] + [Stem(p.parts[last]) + "-" + Str(n) + Suffix(p.parts[last])]))
  }

  // ---------- numbered candidates are pairwise distinct ----------

  lemma {:induction false} JoinSnoc(xs: seq<string>, y: string, sep: string)
    ensures Join(xs + [y], sep) == (if xs == [] then "" else Join(xs, sep) + sep) + y
  {
    if |xs| > 1 {
      assert (xs + [y])[1..] == xs[1..] + [y];
      JoinSnoc(xs[1..], y, sep);
    } else if |xs| == 1 {
      assert (xs + [y])[1..] == [y];
    }
  }

  /** What stands before and after the number. */
  function Head(p: Posix): string
    requires p.parts != []
  {
    var last := |p.parts| - 1;
    p.root + (if last == 0 then "" else Join(p.parts[..last], "/") + "/") + Stem(p.parts[last]) + "-"
  }

  lemma Regroup(a: string, b: string, c: string, d: string, e: string)
    ensures a + (b + (c + "-" + d + e)) == a + b + c + "-" + d + e
  {
  }

  lemma NumberedIs(p: Posix, n: nat)
    requires p.parts != []
    ensures Numbered(p, n) == Head(p) + Str(n) + Suffix(p.parts[|p.parts| - 1])
  {
    var last := |p.parts| - 1;
    var stem, suffix := Stem(p.parts[last]), Suffix(p.parts[last]);
    JoinSnoc(p.parts[..last], stem + "-" + Str(n) + suffix, "/");
    Regroup(p.root, if last == 0 then "" else Join(p.parts[..last], "/") + "/", stem, Str(n), suffix);
  }

  lemma MiddleInjective(a: string, x: string, y: string, b: string)
    requires a + x + b == a + y + b
    ensures x == y
  {
    assert |x| == |y|;
    assert (a + x + b)[|a|..|a| + |x|] == x;
    assert (a + y + b)[|a|..|a| + |y|] == y;
  }

  lemma NumberedInjective(p: Posix, m: nat, n: nat)
    requires p.parts != [] && Numbered(p, m) == Numbered(p, n)
    ensures m == n
  {
    NumberedIs(p, m);
    NumberedIs(p, n);
    MiddleInjective(Head(p), Str(m), Str(n), Suffix(p.parts[|p.parts| - 1]));
    StrInjective(m, n);
  }

  // ---------- where the number goes ----------

  lemma {:induction false} LastDotAt(base: string, ext: string)
    requires '.' !in ext
    ensures LastDot(base + "." + ext) == |base|
  {
    var name := base + "." + ext;
    if ext != "" {
      assert name[..|name| - 1] == base + "." + ext[..|ext| - 1];
      LastDotAt(base, ext[..|ext| - 1]);
    }
  }

  lemma {:induction false} NoLastDot(name: string)
    requires '.' !in name
    ensures LastDot(name) == -1
  {
    if name != "" {
      NoLastDot(name[..|name| - 1]);
    }
  }

  lemma LastNumbered(p: Posix, name: string, n: nat)
    requires p.parts == [name] && p.root == ""
    ensures Numbered(p, n) == Stem(name) + "-" + Str(n) + Suffix(name)
  {
    assert p.parts[..0] + [Stem(name) + "-" + Str(n) + Suffix(name)] == [Stem(name) + "-" + Str(n) + Suffix(name)];
    assert "" + (Stem(name) + "-" + Str(n) + Suffix(name)) == Stem(name) + "-" + Str(n) + Suffix(name);
  }

  lemma PlainNameParts(name: string)
    requires '/' !in name && name != "" && name != "."
    ensures Parse(name) == Posix("", [name])
  {
    assert name[0] != '/';
    assert RootOf(name) == "" && name[0..] == name;
    IndexOfIs(name, '/', |name|);
    assert Split(name, '/') == [name] && [name][1..] == [];
    assert RealParts([name]) == [name] + RealParts([]);
  }

  /** A name with an extension gets the number before its last dot; one without a dot gets it at the end. */
  lemma NumberGoesBeforeSuffix(base: string, ext: string, n: nat)
    requires '/' !in base && '/' !in ext && '.' !in ext && base != "" && ext != ""
    ensures Parse(base + "." + ext).parts != []
    ensures Numbered(Parse(base + "." + ext), n) == base + "-" + Str(n) + "." + ext
  {
    var name := base + "." + ext;
    PlainNameParts(name);
    LastDotAt(base, ext);
    LastNumbered(Parse(name), name, n);
    assert name[..|base|] == base && name[|base|..] == "." + ext;
  }

  lemma NumberGoesLast(name: string, n: nat)
    requires '/' !in name && '.' !in name && name != ""
    ensures Parse(name).parts != [] && Numbered(Parse(name), n) == name + "-" + Str(n)
  {
    PlainNameParts(name);
    NoLastDot(name);
    LastNumbered(Parse(name), name, n);
    assert name + "-" + Str(n) + "" == name + "-" + Str(n);
  }

  /** A leading dot starts no suffix, and a final one ends none: the number then comes last too. */
  lemma NumberGoesAfterBareDots(name: string, n: nat)
    requires '/' !in name && '.' !in name && name != ""
    ensures Parse("." + name).parts != [] && Numbered(Parse("." + name), n) == "." + name + "-" + Str(n)
    ensures Parse(name + ".").parts != [] && Numbered(Parse(name + "."), n) == name + "." + "-" + Str(n)
  {
    var hidden, ended := "." + name, name + ".";
    PlainNameParts(hidden);
    PlainNameParts(ended);
    LastDotAt("", name);
    LastDotAt(name, "");
    assert "" + "." + name == hidden && name + "." + "" == ended;
    LastNumbered(Parse(hidden), hidden, n);
    LastNumbered(Parse(ended), ended, n);
    assert hidden + "-" + Str(n) + "" == hidden + "-" + Str(n);
    assert ended + "-" + Str(n) + "" == ended + "-" + Str(n);
  }

  lemma InFolderParts(folder: string, name: string)
    requires '/' !in folder && folder != "" && folder != "." && '/' !in name && name != "" && name != "."
    ensures Parse(folder + "/" + name) == Posix("", [folder, name])
  {
    var path := folder + ['/'] + name;
    assert path[0] == folder[0] && RootOf(path) == "" && path[0..] == path;
    PartitionAt(folder, '/', name);
    assert path[..|folder|] == folder && path[|folder| + 1..] == name;
    IndexOfIs(name, '/', |name|);
    assert Split(name, '/') == [name];
    assert Split(path, '/') == [folder] + [name];
    assert RealParts([name]) == [name] + RealParts([name][1..]) && [name][1..] == [];
    assert ([folder] + [name])[1..] == [name];
    assert RealParts([folder] + [name]) == [folder] + RealParts([name]);
  }

  /** In a folder of the zip only the name is numbered. */
  lemma NumberStaysInFolder(folder: string, name: string, n: nat)
    requires '/' !in folder && folder != "" && folder != "." && '/' !in name && name != "" && name != "."
    ensures Parse(folder + "/" + name).parts != [] && Parse(name).parts != []
    ensures Numbered(Parse(folder + "/" + name), n) == folder + "/" + Numbered(Parse(name), n)
  {
    var numbered := Stem(name) + "-" + Str(n) + Suffix(name);
    InFolderParts(folder, name);
    PlainNameParts(name);
    LastNumbered(Parse(name), name, n);
    var parts := [folder, name];
    assert parts[..1] + [numbered] == [folder, numbered];
    var shown := [folder, numbered];
    assert shown[1..] == [numbered] && Join([numbered], "/") == numbered;
    assert Join(shown, "/") == folder + "/" + numbered;
    assert Show(Posix("", shown)) == "" + Join(shown, "/");
    assert "" + Join(shown, "/") == folder + "/" + numbered;
  }

  // ---------- the search ----------

  /** The least free number from `n` on. A taken candidate leaves the set; no later number meets it again. */
  function FreeFrom(p: Posix, taken: set<string>, n: nat): nat
    requires p.parts != []
    decreases |taken|
  {
    if Numbered(p, n) !in taken then n else FreeFrom(p, taken - {Numbered(p, n)}, n + 1)
  }

  /**
   The search ends after at most |taken| increments, at a number that is free and below which
   every number is taken.
   */
  lemma {:induction false} FreeFromIsLeast(p: Posix, taken: set<string>, n: nat)
    requires p.parts != []
    ensures n <= FreeFrom(p, taken, n) <= n + |taken|
    ensures Numbered(p, FreeFrom(p, taken, n)) !in taken
    ensures forall m :: n <= m < FreeFrom(p, taken, n) ==> Numbered(p, m) in taken
    decreases |taken|
  {
    if Numbered(p, n) in taken {
      var fewer := taken - {Numbered(p, n)};
      FreeFromIsLeast(p, fewer, n + 1);
      var free := FreeFrom(p, fewer, n + 1);
      if Numbered(p, free) == Numbered(p, n) {
        NumberedInjective(p, free, n);
      }
    }
  }

  /** What `unique_path` returns; None where `with_name` raises because the path has no name. */
  function UniqueOf(path: string, taken: set<string>): Option<string> {
    if path !in taken then Some(path)
    else if Parse(path).parts == [] then None
    else Some(Numbered(Parse(path), FreeFrom(Parse(path), taken, 2)))
  }

  lemma UniqueIsFree(path: string, taken: set<string>)
    ensures UniqueOf(path, taken).Some? ==> UniqueOf(path, taken).value !in taken
  {
    if path in taken && Parse(path).parts != [] {
      FreeFromIsLeast(Parse(path), taken, 2);
    }
  }

  method FindUniquePath(path: string, taken: set<string>) returns (r: Option<string>)
    ensures r == UniqueOf(path, taken)
    ensures r.Some? ==> r.value !in taken
  {
    UniqueIsFree(path, taken);
    if path !in taken {
      return Some(path);
    }
    var posix := Parse(path);
    if posix.parts == [] {
      return None;
    }
    var count := 2;
    ghost var rest := taken;
    while Numbered(posix, count) in taken
      invariant rest <= taken && FreeFrom(posix, rest, count) == FreeFrom(posix, taken, 2)
      invariant forall m: nat :: m >= count ==> (Numbered(posix, m) in rest <==> Numbered(posix, m) in taken)
      decreases |rest|
    {
      forall m: nat | m > count ensures Numbered(posix, m) != Numbered(posix, count) {
        if Numbered(posix, m) == Numbered(posix, count) {
          NumberedInjective(posix, m, count);
        }
      }
      rest := rest - {Numbered(posix, count)};
      count := count + 1;
    }
    r := Some(Numbered(posix, count));
  }

  // ---------- a free path for each ----------

  /** One free path for each wanted one, in order; None where `unique_path` raises. */
  function UniquePaths(paths: seq<string>, taken: set<string>): Option<seq<string>> {
    if paths == [] then Some([]) else
      var first := UniqueOf(paths[0], taken);
      if first.None? then None else Prefixed([first.value], UniquePaths(paths[1..], taken + {first.value}))
  }

  function Prefixed(paths: seq<string>, rest: Option<seq<string>>): Option<seq<string>> {
    if rest.None? then None else Some(paths + rest.value)
  }

  lemma PrefixedNothing(rest: Option<seq<string>>)
    ensures Prefixed([], rest) == rest
  {
    if rest.Some? {
      assert [] + rest.value == rest.value;
    }
  }

  lemma PrefixedSnoc(paths: seq<string>, path: string, rest: Option<seq<string>>)
    ensures Prefixed(paths, Prefixed([path], rest)) == Prefixed(paths + [path], rest)
  {
    if rest.Some? {
      assert paths + ([path] + rest.value) == paths + [path] + rest.value;
    }
  }

  ghost predicate Distinct(names: seq<string>) {
    forall i, j :: 0 <= i < j < |names| ==> names[i] != names[j]
  }

  /** One path per wanted one, pairwise distinct, none of them taken before. */
  lemma {:induction false} UniquePathsDistinct(paths: seq<string>, taken: set<string>)
    requires UniquePaths(paths, taken).Some?
    ensures var found := UniquePaths(paths, taken).value;
            |found| == |paths| && Distinct(found) && forall i :: 0 <= i < |found| ==> found[i] !in taken
  {
    if paths != [] {
      UniqueIsFree(paths[0], taken);
      UniquePathsDistinct(paths[1..], taken + {UniqueOf(paths[0], taken).value});
    }
  }

  /** A path not wanted before keeps its own name, so only clashes are renamed. */
  lemma {:induction false} DistinctPathsStay(paths: seq<string>, taken: set<string>)
    requires Distinct(paths) && forall i :: 0 <= i < |paths| ==> paths[i] !in taken
    ensures UniquePaths(paths, taken) == Some(paths)
  {
    if paths != [] {
      DistinctPathsStay(paths[1..], taken + {paths[0]});
      assert [paths[0]] + paths[1..] == paths;
    }
  }

  /** The wanted path, or that path with a number from 2 on. */
  ghost predicate NamedAfter(path: string, wanted: string) {
    || path == wanted
    || (Parse(wanted).parts != [] && exists n: nat :: n >= 2 && path == Numbered(Parse(wanted), n))
  }

  lemma UniqueIsNamedAfter(path: string, taken: set<string>)
    requires UniqueOf(path, taken).Some?
    ensures NamedAfter(UniqueOf(path, taken).value, path)
  {
    if path in taken {
      FreeFromIsLeast(Parse(path), taken, 2);
    }
  }

  /** Every path is named after the one that was wanted. */
  lemma {:induction false} PathsAreNamedAfter(paths: seq<string>, taken: set<string>, i: nat)
    requires UniquePaths(paths, taken).Some? && i < |paths|
    ensures |UniquePaths(paths, taken).value| == |paths|
    ensures NamedAfter(UniquePaths(paths, taken).value[i], paths[i])
  {
    UniqueIsNamedAfter(paths[0], taken);
    UniquePathsDistinct(paths, taken);
    if i > 0 {
      PathsAreNamedAfter(paths[1..], taken + {UniqueOf(paths[0], taken).value}, i - 1);
    }
  }

  /** The first clash is numbered 2, when that name is free. */
  lemma SecondIsNumberedTwo(path: string, taken: set<string>)
    requires path in taken && Parse(path).parts != [] && Numbered(Parse(path), 2) !in taken
    ensures UniqueOf(path, taken) == Some(Numbered(Parse(path), 2))
  {
  }

  // ---------- archive keys ----------

  function FileName(url: string): string {
    AfterLast(url, '/')
  }

  /** A URL's file name is what follows its last "/". */
  lemma {:induction false} FileNameIs(prefix: string, name: string)
    requires '/' !in name
    ensures FileName(prefix + "/" + name) == name
  {
    var path := prefix + "/" + name;
    if name == "" {
      assert path[|path| - 1] == '/';
    } else {
      var n := |name| - 1;
      assert path[..|path| - 1] == prefix + "/" + name[..n];
      FileNameIs(prefix, name[..n]);
      assert name[..n] + [name[n]] == name;
    }
  }

  function FileNames(urls: seq<string>): (names: seq<string>)
    ensures |names| == |urls|
    ensures forall i :: 0 <= i < |urls| ==> names[i] == FileName(urls[i])
  {
    seq(|urls|, i requires 0 <= i < |urls| => FileName(urls[i]))
  }

  function Key(orderId: string, name: string): string {
    "orders/" + orderId + "/" + name
  }

  function Keys(orderId: string, names: seq<string>): (keys: seq<string>)
    ensures |keys| == |names|
    ensures forall i :: 0 <= i < |names| ==> keys[i] == Key(orderId, names[i])
  {
    seq(|names|, i requires 0 <= i < |names| => Key(orderId, names[i]))
  }

  method ArchiveKeys(orderId: string, urls: seq<string>) returns (keys: Option<seq<string>>)
    ensures keys == (var names := UniquePaths(FileNames(urls), {});
                     if names.None? then None else Some(Keys(orderId, names.value)))
  {
    var taken: set<string>, made: seq<string> := {}, [];
    ghost var all, names: seq<string> := FileNames(urls), [];
    assert all[0..] == all;
    PrefixedNothing(UniquePaths(all, {}));
    for i := 0 to |urls|
      invariant made == Keys(orderId, names)
      invariant UniquePaths(all, {}) == Prefixed(names, UniquePaths(all[i..], taken))
    {
      var name := FindUniquePath(FileName(urls[i]), taken);
      assert all[i..][0] == all[i] && all[i..][1..] == all[i + 1..];
      if name.None? {
        return None;
      }
      PrefixedSnoc(names, name.value, UniquePaths(all[i + 1..], taken + {name.value}));
      taken := taken + {name.value};
      made := made + [Key(orderId, name.value)];
      names := names + [name.value];
    }
    assert names + [] == names;
    keys := Some(made);
  }

  lemma KeyInjective(orderId: string, a: string, b: string)
    requires Key(orderId, a) == Key(orderId, b)
    ensures a == b
  {
    assert Key(orderId, a)[|"orders/" + orderId + "/"|..] == a;
    assert Key(orderId, b)[|"orders/" + orderId + "/"|..] == b;
  }

  /** Archiving an order never writes one key twice: one distinct key per URL, in order. */
  lemma ArchiveKeysDistinct(orderId: string, urls: seq<string>)
    requires UniquePaths(FileNames(urls), {}).Some?
    ensures var keys := Keys(orderId, UniquePaths(FileNames(urls), {}).value);
            |keys| == |urls| && Distinct(keys)
  {
    var names := UniquePaths(FileNames(urls), {}).value;
    var keys := Keys(orderId, names);
    UniquePathsDistinct(FileNames(urls), {});
    forall i, j | 0 <= i < j < |keys| ensures keys[i] != keys[j] {
      if keys[i] == keys[j] {
        KeyInjective(orderId, names[i], names[j]);
      }
    }
  }

  /** The two file names PurePosixPath reads as no name at all. */
  predicate Nameless(name: string) {
    name == "" || name == "."
  }

  lemma NamelessHasNoParts(name: string)
    requires '/' !in name
    ensures Parse(name).parts == [] <==> Nameless(name)
  {
    assert name != "" ==> name[0] != '/';
    assert RootOf(name) == "" && name[0..] == name;
    IndexOfIs(name, '/', |name|);
    assert Split(name, '/') == [name];
    assert [name][1..] == [];
    assert RealParts([name]) == (if Nameless(name) then [] else [name]) + [];
    assert Parse(name).parts == RealParts([name]);
  }

  lemma NumberedIsNotNameless(p: Posix, n: nat)
    requires p.parts != []
    ensures !Nameless(Numbered(p, n))
  {
    NumberedIs(p, n);
    assert Numbered(p, n)[|Head(p)| - 1] == '-';
  }

  lemma UniqueNameless(name: string, taken: set<string>)
    requires '/' !in name && UniqueOf(name, taken).Some? && Nameless(UniqueOf(name, taken).value)
    ensures UniqueOf(name, taken).value == name
  {
    if name in taken {
      NumberedIsNotNameless(Parse(name), FreeFrom(Parse(name), taken, 2));
    }
  }

  /** A nameless file name comes a second time. */
  ghost predicate NamelessTwice(names: seq<string>, taken: set<string>) {
    || (exists i :: 0 <= i < |names| && Nameless(names[i]) && names[i] in taken)
    || (exists i, j :: 0 <= i < j < |names| && Nameless(names[i]) && names[i] == names[j])
  }

  lemma NamelessTwiceStep(names: seq<string>, taken: set<string>, first: string)
    requires names != [] && !(Nameless(names[0]) && names[0] in taken)
    requires first == names[0] || (!Nameless(first) && !Nameless(names[0]))
    ensures NamelessTwice(names, taken) <==> NamelessTwice(names[1..], taken + {first})
  {
    var rest := names[1..];
    if NamelessTwice(names, taken) {
      if i :| 0 <= i < |names| && Nameless(names[i]) && names[i] in taken {
        assert rest[i - 1] == names[i];
      } else {
        var i, j :| 0 <= i < j < |names| && Nameless(names[i]) && names[i] == names[j];
        assert rest[j - 1] == names[j];
        if i > 0 { assert rest[i - 1] == names[i]; }
      }
    }
    if NamelessTwice(rest, taken + {first}) {
      if i :| 0 <= i < |rest| && Nameless(rest[i]) && rest[i] in taken + {first} {
        assert names[i + 1] == rest[i];
      } else {
        var i, j :| 0 <= i < j < |rest| && Nameless(rest[i]) && rest[i] == rest[j];
        assert names[i + 1] == rest[i] && names[j + 1] == rest[j];
      }
    }
  }

  ghost predicate SlashFree(names: seq<string>) {
    forall i :: 0 <= i < |names| ==> '/' !in names[i]
  }

  lemma {:induction false} NamingFailsIff(names: seq<string>, taken: set<string>)
    requires SlashFree(names)
    ensures UniquePaths(names, taken).None? <==> NamelessTwice(names, taken)
  {
    if names != [] {
      NamelessHasNoParts(names[0]);
      var first := UniqueOf(names[0], taken);
      if first.Some? {
        if Nameless(first.value) {
          UniqueNameless(names[0], taken);
        }
        NamelessTwiceStep(names, taken, first.value);
        NamingFailsIff(names[1..], taken + {first.value});
      }
    }
  }

  /** Archiving raises exactly when a URL ending in "/" or "/." meets an earlier one with the same ending. */
  lemma ArchiveFailsIff(urls: seq<string>)
    ensures UniquePaths(FileNames(urls), {}).None? <==> NamelessTwice(FileNames(urls), {})
  {
    NamingFailsIff(FileNames(urls), {});
  }

  /** Two URLs that end in "/". */
  lemma ArchiveFailsExample()
    ensures UniquePaths(FileNames(["a/", "b/"]), {}).None?
  {
    var names := FileNames(["a/", "b/"]);
    assert names[0] == "" && names[1] == "";
    assert Nameless(names[0]) && names[0] == names[1];
    ArchiveFailsIff(["a/", "b/"]);
  }
}
