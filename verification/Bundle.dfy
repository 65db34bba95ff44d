/** The order's zip: one entry per file of the manifest, each at its own path under its row's code. */
module Bundle {
  import opened Wrappers
  import opened Text
  import opened Decimal
  import opened UniquePath
  import opened Manifest

  datatype BundleFile = BundleFile(path: string, url: string)

  // ---------- what goes into the zip ----------

  /** A file under its row's code; `pathOf` is the path component of a URL. */
  function WantedFile(pathOf: string -> string, code: string, file: File): BundleFile {
    BundleFile(code + "/" + FileName(pathOf(file.url)), file.url)
  }

  function WantedFiles(pathOf: string -> string, code: string, files: seq<File>): seq<BundleFile> {
    if files == [] then [] else
      WantedFiles(pathOf, code, files[..|files| - 1]) + [WantedFile(pathOf, code, files[|files| - 1])]
  }

  function WantedRows(pathOf: string -> string, rows: seq<Row>): seq<BundleFile>
    reads rows
  {
    if rows == [] then [] else
      var row := rows[|rows| - 1];
      WantedRows(pathOf, rows[..|rows| - 1]) + WantedFiles(pathOf, row.code, row.files)
  }

  function Wanted(pathOf: string -> string, m: DeploymentManifest): seq<BundleFile>
    reads m.system, m.drawings, m.schedules
  {
    WantedRows(pathOf, m.system) + WantedRows(pathOf, m.drawings) + WantedRows(pathOf, m.schedules)
  }

  function Paths(files: seq<BundleFile>): (paths: seq<string>)
    ensures |paths| == |files|
    ensures forall i :: 0 <= i < |files| ==> paths[i] == files[i].path
  {
    seq(|files|, i requires 0 <= i < |files| => files[i].path)
  }

  function Urls(files: seq<BundleFile>): (urls: seq<string>)
    ensures |urls| == |files|
    ensures forall i :: 0 <= i < |files| ==> urls[i] == files[i].url
  {
    seq(|files|, i requires 0 <= i < |files| => files[i].url)
  }

  // ---------- adding one entry ----------

  function Set(paths: seq<string>): set<string> {
    set p | p in paths
  }

  /** Naming a longer list names its start the same way first. */
  lemma {:induction false} UniquePathsConcat(a: seq<string>, b: seq<string>, taken: set<string>)
    ensures UniquePaths(a + b, taken)
         == if UniquePaths(a, taken).None? then None
            else Prefixed(UniquePaths(a, taken).value, UniquePaths(b, taken + Set(UniquePaths(a, taken).value)))
  {
    if a == [] {
      assert a + b == b && taken + Set([]) == taken;
      PrefixedNothing(UniquePaths(b, taken));
    } else {
      assert (a + b)[1..] == a[1..] + b && (a + b)[0] == a[0];
      var first := UniqueOf(a[0], taken);
      if first.Some? {
        var more := taken + {first.value};
        UniquePathsConcat(a[1..], b, more);
        var rest := UniquePaths(a[1..], more);
        if rest.Some? {
          assert taken + Set([first.value] + rest.value) == more + Set(rest.value);
          PrefixedTwice([first.value], rest.value, UniquePaths(b, more + Set(rest.value)));
        }
      }
    }
  }

  lemma PrefixedTwice(a: seq<string>, b: seq<string>, rest: Option<seq<string>>)
    ensures Prefixed(a, Prefixed(b, rest)) == Prefixed(a + b, rest)
  {
    if rest.Some? {
      assert a + (b + rest.value) == a + b + rest.value;
    }
  }

  /** Where the loops stand: the entries are the files so far, each under its free path. */
  ghost predicate Placed(done: seq<BundleFile>, entries: seq<BundleFile>, taken: set<string>) {
    && UniquePaths(Paths(done), {}) == Some(Paths(entries))
    && Urls(entries) == Urls(done)
    && taken == Set(Paths(entries))
  }

  lemma PlacedSnoc(
      done: seq<BundleFile>, entries: seq<BundleFile>, taken: set<string>, wanted: BundleFile, path: string)
    requires Placed(done, entries, taken) && UniqueOf(wanted.path, taken) == Some(path)
    ensures Placed(done + [wanted], entries + [BundleFile(path, wanted.url)], taken + {path})
  {
    UniquePathsConcat(Paths(done), [wanted.path], {});
    assert Paths(done + [wanted]) == Paths(done) + [wanted.path];
    assert Paths(entries + [BundleFile(path, wanted.url)]) == Paths(entries) + [path];
    assert {} + Set(Paths(entries)) == taken;
    OneUniquePath(wanted.path, taken);
    assert Urls(entries + [BundleFile(path, wanted.url)]) == Urls(entries) + [wanted.url];
    assert Urls(done + [wanted]) == Urls(done) + [wanted.url];
    assert Set(Paths(entries) + [path]) == taken + {path};
  }

  lemma OneUniquePath(path: string, taken: set<string>)
    ensures UniquePaths([path], taken)
         == if UniqueOf(path, taken).None? then None else Some([UniqueOf(path, taken).value])
  {
    assert [path][1..] == [];
    if UniqueOf(path, taken).Some? {
      assert [UniqueOf(path, taken).value] + [] == [UniqueOf(path, taken).value];
    }
  }

  lemma PlacedFails(done: seq<BundleFile>, entries: seq<BundleFile>, taken: set<string>, wanted: BundleFile)
    requires Placed(done, entries, taken) && UniqueOf(wanted.path, taken).None?
    ensures UniquePaths(Paths(done + [wanted]), {}).None?
  {
    assert {} + Set(Paths(entries)) == taken;
    UniquePathsConcat(Paths(done), [wanted.path], {});
    assert Paths(done + [wanted]) == Paths(done) + [wanted.path];
  }

  /** Once one file fails, every longer list fails. */
  lemma FailureStays(done: seq<BundleFile>, rest: seq<BundleFile>)
    requires UniquePaths(Paths(done), {}).None?
    ensures UniquePaths(Paths(done + rest), {}).None?
  {
    UniquePathsConcat(Paths(done), Paths(rest), {});
    assert Paths(done + rest) == Paths(done) + Paths(rest);
  }

  // ---------- the loops ----------

  lemma TakeOne<T>(done: seq<T>, all: seq<T>, j: nat)
    requires j < |all|
    ensures done + all[..j + 1] == done + all[..j] + [all[j]]
    ensures done + all == done + all[..j] + [all[j]] + all[j + 1..]
  {
  }

  /** One row's files. */
  method BundleRow(
      pathOf: string -> string, row: Row, ghost done: seq<BundleFile>, before: seq<BundleFile>, used: set<string>)
    returns (ok: bool, entries: seq<BundleFile>, taken: set<string>)
    requires Placed(done, before, used)
    ensures ok ==> Placed(done + WantedFiles(pathOf, row.code, row.files), entries, taken)
    ensures !ok ==> UniquePaths(Paths(done + WantedFiles(pathOf, row.code, row.files)), {}).None?
  {
    ok, entries, taken := true, before, used;
    ghost var all := WantedFiles(pathOf, row.code, row.files);
    WantedFilesAt(pathOf, row.code, row.files);
    assert done + all[..0] == done;
    for j := 0 to |row.files|
      invariant Placed(done + all[..j], entries, taken)
    {
      var wanted := WantedFile(pathOf, row.code, row.files[j]);
      TakeOne(done, all, j);
      ok, entries, taken := PlaceFile(wanted, done + all[..j], entries, taken);
      if !ok {
        FailureStays(done + all[..j] + [wanted], all[j + 1..]);
        return;
      }
    }
    assert all[..|all|] == all;
  }

  /** One file at its free path. */
  method PlaceFile(wanted: BundleFile, ghost done: seq<BundleFile>, before: seq<BundleFile>, used: set<string>)
    returns (ok: bool, entries: seq<BundleFile>, taken: set<string>)
    requires Placed(done, before, used)
    ensures ok ==> Placed(done + [wanted], entries, taken)
    ensures !ok ==> UniquePaths(Paths(done + [wanted]), {}).None?
  {
    var path := FindUniquePath(wanted.path, used);
    if path.None? {
      PlacedFails(done, before, used, wanted);
      return false, before, used;
    }
    PlacedSnoc(done, before, used, wanted, path.value);
    ok, entries, taken := true, before + [BundleFile(path.value, wanted.url)], used + {path.value};
  }

  lemma {:induction false} WantedFilesAt(pathOf: string -> string, code: string, files: seq<File>)
    ensures |WantedFiles(pathOf, code, files)| == |files|
    ensures forall i :: 0 <= i < |files| ==> WantedFiles(pathOf, code, files)[i] == WantedFile(pathOf, code, files[i])
  {
    if files != [] {
      WantedFilesAt(pathOf, code, files[..|files| - 1]);
    }
  }

  method BundleRows(
      pathOf: string -> string, rows: seq<Row>, ghost done: seq<BundleFile>, before: seq<BundleFile>, used: set<string>)
    returns (ok: bool, entries: seq<BundleFile>, taken: set<string>)
    requires Placed(done, before, used)
    ensures ok ==> Placed(done + WantedRows(pathOf, rows), entries, taken)
    ensures !ok ==> UniquePaths(Paths(done + WantedRows(pathOf, rows)), {}).None?
  {
    ok, entries, taken := true, before, used;
    assert done + [] == done;
    for i := 0 to |rows|
      invariant Placed(done + WantedRows(pathOf, rows[..i]), entries, taken)
    {
      ghost var far := done + WantedRows(pathOf, rows[..i]);
      ghost var next := WantedFiles(pathOf, rows[i].code, rows[i].files);
      ok, entries, taken := BundleRow(pathOf, rows[i], far, entries, taken);
      assert rows[..i + 1][..i] == rows[..i];
      Assoc(done, WantedRows(pathOf, rows[..i]), next);
      if !ok {
        var rest := WantedRowsSplit(pathOf, rows, i + 1);
        FailureStays(far + next, rest);
        Assoc(done, WantedRows(pathOf, rows[..i + 1]), rest);
        return;
      }
    }
    assert rows[..|rows|] == rows;
  }

  lemma {:induction false} WantedRowsSplit(pathOf: string -> string, rows: seq<Row>, i: nat)
    returns (rest: seq<BundleFile>)
    requires i <= |rows|
    ensures WantedRows(pathOf, rows) == WantedRows(pathOf, rows[..i]) + rest
  {
    if i == |rows| {
      rest := [];
      assert rows[..i] == rows;
      assert WantedRows(pathOf, rows) + [] == WantedRows(pathOf, rows);
    } else {
      var n := |rows| - 1;
      var shorter := WantedRowsSplit(pathOf, rows[..n], i);
      assert rows[..n][..i] == rows[..i];
      rest := shorter + WantedFiles(pathOf, rows[n].code, rows[n].files);
      Assoc(WantedRows(pathOf, rows[..i]), shorter, WantedFiles(pathOf, rows[n].code, rows[n].files));
    }
  }

  /** `bundle_files_for`; None where a path without a name is wanted a second time. */
  method BundleFilesFor(pathOf: string -> string, m: DeploymentManifest) returns (entries: Option<seq<BundleFile>>)
    ensures entries.None? <==> UniquePaths(Paths(Wanted(pathOf, m)), {}).None?
    ensures entries.Some? ==>
      && Some(Paths(entries.value)) == UniquePaths(Paths(Wanted(pathOf, m)), {})
      && Urls(entries.value) == Urls(Wanted(pathOf, m))
      && Distinct(Paths(entries.value))
      && forall k :: 0 <= k < |entries.value| ==> EntryFits(pathOf, m, entries.value[k])
  {
    var made: seq<BundleFile>, taken: set<string>, ok := [], {}, true;
    ghost var s, d, c := WantedRows(pathOf, m.system), WantedRows(pathOf, m.drawings), WantedRows(pathOf, m.schedules);
    assert Paths([]) == [] && [] + s == s;
    ok, made, taken := BundleRows(pathOf, m.system, [], made, taken);
    if ok {
      ok, made, taken := BundleRows(pathOf, m.drawings, s, made, taken);
      if ok {
        ok, made, taken := BundleRows(pathOf, m.schedules, s + d, made, taken);
      } else {
        FailureStays(s + d, c);
      }
    } else {
      FailureStays(s, d);
      FailureStays(s + d, c);
    }
    if !ok {
      return None;
    }
    UniquePathsDistinct(Paths(Wanted(pathOf, m)), {});
    EntriesFit(pathOf, m, made);
    entries := Some(made);
  }

  // ---------- a built manifest always bundles, and completely ----------

  lemma CodedPathHasParts(section: Section, cloud: bool, i: nat, name: string)
    ensures Parse(Code(section, cloud, i) + "/" + name).parts != []
  {
    var code := Code(section, cloud, i);
    var path := code + ['/'] + name;
    assert code[0] == Letter(section, cloud) && forall k :: 1 <= k < |code| ==> code[k] == Str(i + 1)[k - 1];
    assert '/' !in code && |code| >= 2;
    PartitionAt(code, '/', name);
    assert path[0] == code[0] && RootOf(path) == "" && path[0..] == path;
    assert path[..|code|] == code;
    FirstPieceCounts(path, code);
  }

  lemma FirstPieceCounts(path: string, code: string)
    requires IndexOf(path, '/') == |code| < |path| && path[..|code|] == code && |code| >= 2
    ensures RealParts(Split(path, '/')) != []
  {
    var pieces := Split(path, '/');
    assert pieces[0] == code;
  }

  /** Paths that all have a name can always be numbered free. */
  lemma {:induction false} NamedPathsSucceed(paths: seq<string>, taken: set<string>)
    requires forall i :: 0 <= i < |paths| ==> Parse(paths[i]).parts != []
    ensures UniquePaths(paths, taken).Some?
  {
    if paths != [] {
      assert UniqueOf(paths[0], taken).Some?;
      NamedPathsSucceed(paths[1..], taken + {UniqueOf(paths[0], taken).value});
    }
  }

  ghost predicate AllNamed(files: seq<BundleFile>) {
    forall i :: 0 <= i < |files| ==> Parse(files[i].path).parts != []
  }

  lemma {:induction false} WantedRowsNamed(pathOf: string -> string, m: DeploymentManifest, rows: seq<Row>)
    requires Coded(m) && forall r :: r in rows ==> r in m.system + m.drawings + m.schedules
    ensures AllNamed(WantedRows(pathOf, rows))
  {
    if rows != [] {
      var n := |rows| - 1;
      WantedRowsNamed(pathOf, m, rows[..n]);
      var s, k := PlaceOf(m, rows[n]);
      var files := WantedFiles(pathOf, rows[n].code, rows[n].files);
      WantedFilesAt(pathOf, rows[n].code, rows[n].files);
      forall i | 0 <= i < |files| ensures Parse(files[i].path).parts != [] {
        CodedPathHasParts(s, m.cloud, k, FileName(pathOf(rows[n].files[i].url)));
      }
    }
  }

  lemma {:induction false} SumOnes(files: seq<File>)
    ensures Sum(One, files) == |files|
  {
    if files != [] {
      SumOnes(files[..|files| - 1]);
    }
  }

  lemma {:induction false} WantedRowsCount(pathOf: string -> string, rows: seq<Row>)
    ensures |WantedRows(pathOf, rows)| == SumRows(One, Values(rows))
  {
    if rows != [] {
      var n := |rows| - 1;
      WantedRowsCount(pathOf, rows[..n]);
      WantedFilesAt(pathOf, rows[n].code, rows[n].files);
      SumOnes(rows[n].files);
      ValuesSnoc(rows[..n], rows[n]);
      assert rows[..n] + [rows[n]] == rows;
      assert Values(rows)[..n] == Values(rows[..n]) by { ValuesLength(rows[..n]); }
    }
  }

  lemma {:induction false} ValuesLength(rows: seq<Row>)
    ensures |Values(rows)| == |rows|
  {
    if rows != [] {
      ValuesLength(rows[..|rows| - 1]);
    }
  }

  /** 1 for a file at this URL. */
  function Is(url: string): File -> int {
    (f: File) => if f.url == url then 1 else 0
  }

  lemma UrlsConcat(a: seq<BundleFile>, b: seq<BundleFile>)
    ensures Urls(a + b) == Urls(a) + Urls(b)
  {
  }

  lemma {:induction false} WantedFilesHold(pathOf: string -> string, code: string, files: seq<File>, url: string)
    ensures multiset(Urls(WantedFiles(pathOf, code, files)))[url] == Sum(Is(url), files)
  {
    if files != [] {
      var n := |files| - 1;
      var wanted := WantedFile(pathOf, code, files[n]);
      WantedFilesHold(pathOf, code, files[..n], url);
      UrlsConcat(WantedFiles(pathOf, code, files[..n]), [wanted]);
      assert Urls([wanted]) == [files[n].url];
    }
  }

  lemma {:induction false} WantedRowsHold(pathOf: string -> string, rows: seq<Row>, url: string)
    ensures multiset(Urls(WantedRows(pathOf, rows)))[url] == SumRows(Is(url), Values(rows))
  {
    if rows != [] {
      var n := |rows| - 1;
      WantedRowsHold(pathOf, rows[..n], url);
      WantedFilesHold(pathOf, rows[n].code, rows[n].files, url);
      UrlsConcat(WantedRows(pathOf, rows[..n]), WantedFiles(pathOf, rows[n].code, rows[n].files));
      assert Values(rows)[..n] == Values(rows[..n]) by { ValuesLength(rows[..n]); }
    }
  }

  /** A manifest's files, URL by URL. */
  lemma WantedHolds(pathOf: string -> string, m: DeploymentManifest, url: string)
    ensures multiset(Urls(Wanted(pathOf, m)))[url]
         == SumRows(Is(url), Values(m.system)) + SumRows(Is(url), Values(m.drawings))
            + SumRows(Is(url), Values(m.schedules))
  {
    WantedRowsHold(pathOf, m.system, url);
    WantedRowsHold(pathOf, m.drawings, url);
    WantedRowsHold(pathOf, m.schedules, url);
    UrlsConcat(WantedRows(pathOf, m.system), WantedRows(pathOf, m.drawings));
    UrlsConcat(WantedRows(pathOf, m.system) + WantedRows(pathOf, m.drawings), WantedRows(pathOf, m.schedules));
  }

  lemma CodedBundles(pathOf: string -> string, m: DeploymentManifest)
    requires Coded(m)
    ensures UniquePaths(Paths(Wanted(pathOf, m)), {}).Some?
  {
    WantedRowsNamed(pathOf, m, m.system);
    WantedRowsNamed(pathOf, m, m.drawings);
    WantedRowsNamed(pathOf, m, m.schedules);
    NamedPathsSucceed(Paths(Wanted(pathOf, m)), {});
  }

  lemma WantedCount(pathOf: string -> string, m: DeploymentManifest)
    ensures |Wanted(pathOf, m)|
         == SumRows(One, Values(m.system)) + SumRows(One, Values(m.drawings)) + SumRows(One, Values(m.schedules))
  {
    WantedRowsCount(pathOf, m.system);
    WantedRowsCount(pathOf, m.drawings);
    WantedRowsCount(pathOf, m.schedules);
  }

  /** The sections hold the rows of the archived files. */
  ghost predicate BuiltFrom(upper: string -> string, archived: seq<Archived>, m: DeploymentManifest) {
    && Values(m.drawings) == RowsOf(upper, archived, Kinds(archived), EngineeringDrawings)
    && Values(m.schedules) == RowsOf(upper, archived, Kinds(archived), ManifestsAndSchedules)
  }

  lemma WantedOfBuilt(upper: string -> string, pathOf: string -> string, archived: seq<Archived>, m: DeploymentManifest)
    requires BuiltFrom(upper, archived, m)
    ensures |Wanted(pathOf, m)| == SumRows(One, Values(m.system)) + ShownFiles(archived)
    ensures forall url ::
      multiset(Urls(Wanted(pathOf, m)))[url] == SumRows(Is(url), Values(m.system)) + SumShown(Is(url), upper, archived)
  {
    WantedCount(pathOf, m);
    RowsConserveFiles(One, upper, archived);
    ShownTotals(upper, archived);
    forall url
      ensures multiset(Urls(Wanted(pathOf, m)))[url]
           == SumRows(Is(url), Values(m.system)) + SumShown(Is(url), upper, archived)
    {
      WantedHolds(pathOf, m, url);
      RowsConserveFiles(Is(url), upper, archived);
    }
  }

  method BundleBuilt(upper: string -> string, pathOf: string -> string, archived: seq<Archived>, m: DeploymentManifest)
    returns (entries: seq<BundleFile>)
    requires Coded(m) && BuiltFrom(upper, archived, m)
    ensures |entries| == SumRows(One, Values(m.system)) + ShownFiles(archived)
    ensures Urls(entries) == Urls(Wanted(pathOf, m))
    ensures forall url ::
      multiset(Urls(entries))[url] == SumRows(Is(url), Values(m.system)) + SumShown(Is(url), upper, archived)
    ensures Distinct(Paths(entries)) && forall k :: 0 <= k < |entries| ==> EntryFits(pathOf, m, entries[k])
  {
    CodedBundles(pathOf, m);
    WantedOfBuilt(upper, pathOf, archived, m);
    var made := BundleFilesFor(pathOf, m);
    entries := made.value;
    assert |entries| == |Urls(entries)| == |Wanted(pathOf, m)|;
  }

  // ---------- which path each file gets ----------

  /** A file of one of the rows, wanted under the row's code by its own name. */
  ghost predicate IsRowsFile(pathOf: string -> string, rows: seq<Row>, wanted: BundleFile)
    reads rows
  {
    exists i, j ::
      && 0 <= i < |rows| && 0 <= j < |rows[i].files| && wanted.url == rows[i].files[j].url
      && wanted.path == rows[i].code + "/" + FileName(pathOf(rows[i].files[j].url))
  }

  lemma {:induction false} WantedRowsAre(pathOf: string -> string, rows: seq<Row>, k: nat)
    requires k < |WantedRows(pathOf, rows)|
    ensures IsRowsFile(pathOf, rows, WantedRows(pathOf, rows)[k])
  {
    var n := |rows| - 1;
    var before := WantedRows(pathOf, rows[..n]);
    if k < |before| {
      WantedRowsAre(pathOf, rows[..n], k);
      var i, j :|
        && 0 <= i < n && 0 <= j < |rows[..n][i].files| && before[k].url == rows[..n][i].files[j].url
        && before[k].path == rows[..n][i].code + "/" + FileName(pathOf(rows[..n][i].files[j].url));
      assert rows[i] == rows[..n][i];
    } else {
      WantedFilesAt(pathOf, rows[n].code, rows[n].files);
      assert WantedRows(pathOf, rows)[k] == WantedFile(pathOf, rows[n].code, rows[n].files[k - |before|]);
    }
  }

  /** Each entry is a file of one of the manifest's rows, under the row's code and named after the file. */
  ghost predicate EntryFits(pathOf: string -> string, m: DeploymentManifest, entry: BundleFile)
    reads m.system, m.drawings, m.schedules
  {
    exists wanted: BundleFile ::
      && wanted.url == entry.url && NamedAfter(entry.path, wanted.path)
      && (IsRowsFile(pathOf, m.system, wanted) || IsRowsFile(pathOf, m.drawings, wanted)
          || IsRowsFile(pathOf, m.schedules, wanted))
  }

  lemma WantedAre(pathOf: string -> string, m: DeploymentManifest, k: nat)
    requires k < |Wanted(pathOf, m)|
    ensures var wanted := Wanted(pathOf, m)[k];
            || IsRowsFile(pathOf, m.system, wanted) || IsRowsFile(pathOf, m.drawings, wanted)
            || IsRowsFile(pathOf, m.schedules, wanted)
  {
    var s, d := WantedRows(pathOf, m.system), WantedRows(pathOf, m.drawings);
    if k < |s| {
      WantedRowsAre(pathOf, m.system, k);
    } else if k < |s| + |d| {
      WantedRowsAre(pathOf, m.drawings, k - |s|);
    } else {
      WantedRowsAre(pathOf, m.schedules, k - |s| - |d|);
    }
  }

  lemma EntriesFit(pathOf: string -> string, m: DeploymentManifest, entries: seq<BundleFile>)
    requires Some(Paths(entries)) == UniquePaths(Paths(Wanted(pathOf, m)), {})
    requires Urls(entries) == Urls(Wanted(pathOf, m))
    ensures forall k :: 0 <= k < |entries| ==> EntryFits(pathOf, m, entries[k])
  {
    var wanted := Wanted(pathOf, m);
    assert |entries| == |Urls(entries)| == |wanted|;
    forall k | 0 <= k < |entries| ensures EntryFits(pathOf, m, entries[k]) {
      PathsAreNamedAfter(Paths(wanted), {}, k);
      WantedAre(pathOf, m, k);
      assert Paths(entries)[k] == entries[k].path && Paths(wanted)[k] == wanted[k].path;
      assert Urls(entries)[k] == entries[k].url && Urls(wanted)[k] == wanted[k].url;
    }
  }

  /**
   Zipping a built manifest: it never raises, and has exactly the manifest's files, in order, each at its
   own path: every URL as often as the system images and the archived files with a row have it.
   */
  method BuildThenBundle(
      upper: string -> string, pathOf: string -> string, archived: seq<Archived>, system: seq<Row>, cloud: bool)
    returns (m: DeploymentManifest, entries: seq<BundleFile>)
    modifies system
    ensures |entries| == m.totalFileCount == SumRows(One, Values(system)) + ShownFiles(archived)
    ensures m.totalSizeBytes == SumRows(SizeOf, Values(system)) + ShownBytes(archived)
    ensures Urls(entries) == Urls(Wanted(pathOf, m))
    ensures forall url ::
      multiset(Urls(entries))[url] == SumRows(Is(url), Values(system)) + SumShown(Is(url), upper, archived)
    ensures Distinct(Paths(entries)) && forall k :: 0 <= k < |entries| ==> EntryFits(pathOf, m, entries[k])
    ensures m.system == system && m.cloud == cloud && Coded(m)
  {
    m := Build(upper, archived, system, cloud);
    entries := BundleBuilt(upper, pathOf, archived, m);
  }
}
