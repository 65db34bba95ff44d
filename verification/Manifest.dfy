/**
 The delivery manifest: archived files of one kind fold into one row, rows go to three sections, and
 every row gets a code from its place in its section.
 */
module Manifest {
  import opened Wrappers
  import opened Decimal

  datatype Kind =
    | Bom | ComputeContainer3d | GridContainer3d | InterfacePlate | Sld | SldHmiSvg | PidCooling
    | CommsDiagram | CableHoseSchedule | InstallSequence | Dtm

  datatype Section = SystemImages | EngineeringDrawings | ManifestsAndSchedules

  datatype Ref = Ref(kind: Kind, format: string, url: string)
  datatype Archived = Archived(ref: Ref, size: int)
  datatype File = File(format: string, sizeBytes: int, url: string)

  /** What a row shows, its code aside. */
  datatype RowValue = RowValue(name: string, files: seq<File>)

  /** The section and name of a kind's row; the HMI drawing has no row. */
  function Metadata(kind: Kind): Option<(Section, string)> {
    match kind
    case Bom => Some((ManifestsAndSchedules, "Bill of Materials"))
    case ComputeContainer3d => Some((EngineeringDrawings, "Compute Container 3D"))
    case GridContainer3d => Some((EngineeringDrawings, "Grid Container 3D"))
    case InterfacePlate => Some((EngineeringDrawings, "Interface Plates"))
    case Sld => Some((EngineeringDrawings, "Single Line Diagram"))
    case SldHmiSvg => None
    case PidCooling => Some((EngineeringDrawings, "P&ID - Cooling"))
    case CommsDiagram => Some((EngineeringDrawings, "Comms Network"))
    case CableHoseSchedule => Some((ManifestsAndSchedules, "Cable & Hose Schedule"))
    case InstallSequence => Some((EngineeringDrawings, "Installation Sequence"))
    case Dtm => Some((ManifestsAndSchedules, "Device Topology Manifest"))
  }

  predicate Shown(kind: Kind, section: Section) {
    Metadata(kind).Some? && Metadata(kind).value.0 == section
  }

  /** Every kind but the HMI drawing has a row; three kinds are schedules, the others drawings. */
  lemma KindsWithRows(kind: Kind)
    ensures Metadata(kind).None? <==> kind == SldHmiSvg
    ensures Shown(kind, ManifestsAndSchedules) <==> kind in {Bom, CableHoseSchedule, Dtm}
    ensures Shown(kind, EngineeringDrawings) <==> kind !in {Bom, CableHoseSchedule, Dtm, SldHmiSvg}
    ensures !Shown(kind, SystemImages)
  {
  }

  // ---------- grouping ----------

  /** The kinds in order of first appearance. */
  function Kinds(archived: seq<Archived>): seq<Kind> {
    if archived == [] then [] else
      var n := |archived| - 1;
      var before, kind := Kinds(archived[..n]), archived[n].ref.kind;
      if kind in before then before else before + [kind]
  }

  function OfKind(archived: seq<Archived>, kind: Kind): seq<Archived> {
    if archived == [] then [] else
      var n := |archived| - 1;
      OfKind(archived[..n], kind) + if archived[n].ref.kind == kind then [archived[n]] else []
  }

  function FileOf(upper: string -> string, a: Archived): File {
    File(upper(a.ref.format), a.size, a.ref.url)
  }

  function Files(upper: string -> string, archived: seq<Archived>): seq<File> {
    if archived == [] then [] else
      var n := |archived| - 1;
      Files(upper, archived[..n]) + [FileOf(upper, archived[n])]
  }

  function RowOf(upper: string -> string, archived: seq<Archived>, kind: Kind): RowValue
    requires Metadata(kind).Some?
  {
    RowValue(Metadata(kind).value.1, Files(upper, OfKind(archived, kind)))
  }

  /** A section's rows: one per kind shown there, in the kinds' order. */
  function RowsOf(upper: string -> string, archived: seq<Archived>, kinds: seq<Kind>, section: Section): seq<RowValue> {
    if kinds == [] then [] else
      var n := |kinds| - 1;
      RowsOf(upper, archived, kinds[..n], section)
      + if Shown(kinds[n], section) then [RowOf(upper, archived, kinds[n])] else []
  }

  ghost predicate DistinctKinds(kinds: seq<Kind>) {
    forall i, j :: 0 <= i < j < |kinds| ==> kinds[i] != kinds[j]
  }

  /** `k` is where the kind appears first. */
  predicate FirstAt(archived: seq<Archived>, kind: Kind, k: nat) {
    k < |archived| && archived[k].ref.kind == kind && forall j :: 0 <= j < k ==> archived[j].ref.kind != kind
  }

  ghost predicate InFirstOrder(archived: seq<Archived>, kinds: seq<Kind>) {
    forall i, j, p: nat, q: nat ::
      0 <= i < j < |kinds| && FirstAt(archived, kinds[i], p) && FirstAt(archived, kinds[j], q) ==> p < q
  }

  lemma {:induction false} KindsListed(archived: seq<Archived>)
    ensures forall k :: 0 <= k < |archived| ==> archived[k].ref.kind in Kinds(archived)
    ensures forall kind :: kind in Kinds(archived) ==> exists k: nat :: FirstAt(archived, kind, k)
  {
    if archived != [] {
      var n := |archived| - 1;
      KindsListed(archived[..n]);
      forall kind | kind in Kinds(archived) ensures exists k: nat :: FirstAt(archived, kind, k) {
        if kind in Kinds(archived[..n]) {
          var k: nat :| FirstAt(archived[..n], kind, k);
          assert FirstAt(archived, kind, k);
        } else {
          assert FirstAt(archived, kind, n);
        }
      }
    }
  }

  /** Rows come in order of first appearance, one per kind. */
  lemma {:induction false} KindsInFirstOrder(archived: seq<Archived>)
    ensures DistinctKinds(Kinds(archived)) && InFirstOrder(archived, Kinds(archived))
  {
    if archived != [] {
      var n := |archived| - 1;
      KindsInFirstOrder(archived[..n]);
      KindsListed(archived[..n]);
      var before, kinds := Kinds(archived[..n]), Kinds(archived);
      forall i, j, p: nat, q: nat |
        0 <= i < j < |kinds| && FirstAt(archived, kinds[i], p) && FirstAt(archived, kinds[j], q)
        ensures p < q
      {
        var k: nat :| FirstAt(archived[..n], kinds[i], k);
        assert archived[..n][k] == archived[k];
        assert p == k;
        if j < |before| {
          var l: nat :| FirstAt(archived[..n], kinds[j], l);
          assert archived[..n][l] == archived[l];
          assert q == l;
        }
      }
    }
  }

  // ---------- conservation ----------

  /** Sums of any weight over files: 1 counts them, their size adds them up, a test finds one. */
  function Sum(w: File -> int, files: seq<File>): int {
    if files == [] then 0 else Sum(w, files[..|files| - 1]) + w(files[|files| - 1])
  }

  function SumRows(w: File -> int, rows: seq<RowValue>): int {
    if rows == [] then 0 else SumRows(w, rows[..|rows| - 1]) + Sum(w, rows[|rows| - 1].files)
  }

  /** The weight of the archived files whose kind has a row. */
  function SumShown(w: File -> int, upper: string -> string, archived: seq<Archived>): int {
    if archived == [] then 0 else
      var n := |archived| - 1;
      SumShown(w, upper, archived[..n])
      + if Metadata(archived[n].ref.kind).Some? then w(FileOf(upper, archived[n])) else 0
  }

  /** The weight of one kind's files, when its row is in the section. */
  function KindWeight(
      w: File -> int, upper: string -> string, archived: seq<Archived>, kind: Kind, section: Section): int {
    if Shown(kind, section) then Sum(w, Files(upper, OfKind(archived, kind))) else 0
  }

  function SumKinds(
      w: File -> int, upper: string -> string, archived: seq<Archived>, kinds: seq<Kind>, section: Section): int {
    if kinds == [] then 0 else
      var n := |kinds| - 1;
      SumKinds(w, upper, archived, kinds[..n], section) + KindWeight(w, upper, archived, kinds[n], section)
  }

  lemma {:induction false} SumRowsIsSumKinds(
    w: File -> int, upper: string -> string, archived: seq<Archived>, kinds: seq<Kind>, section: Section)
    ensures SumRows(w, RowsOf(upper, archived, kinds, section)) == SumKinds(w, upper, archived, kinds, section)
  {
    if kinds != [] {
      var n := |kinds| - 1;
      SumRowsIsSumKinds(w, upper, archived, kinds[..n], section);
      var before := RowsOf(upper, archived, kinds[..n], section);
      if Shown(kinds[n], section) {
        assert (before + [RowOf(upper, archived, kinds[n])])[..|before|] == before;
      } else {
        assert before + [] == before;
      }
    }
  }

  /** One more archived file adds its weight to its own kind's row only. */
  lemma KindWeightSnoc(
      w: File -> int, upper: string -> string, archived: seq<Archived>, x: Archived, kind: Kind, section: Section)
    ensures KindWeight(w, upper, archived + [x], kind, section)
         == KindWeight(w, upper, archived, kind, section)
            + if x.ref.kind == kind && Shown(kind, section) then w(FileOf(upper, x)) else 0
  {
    assert (archived + [x])[..|archived|] == archived;
    var own := OfKind(archived, kind);
    if x.ref.kind == kind {
      assert (own + [x])[..|own|] == own;
      var files := Files(upper, own);
      assert (files + [FileOf(upper, x)])[..|files|] == files;
    } else {
      assert own + [] == own;
    }
  }

  lemma {:induction false} SumKindsSnoc(
    w: File -> int, upper: string -> string, archived: seq<Archived>, x: Archived, kinds: seq<Kind>, section: Section)
    requires DistinctKinds(kinds)
    ensures SumKinds(w, upper, archived + [x], kinds, section)
         == SumKinds(w, upper, archived, kinds, section)
            + if x.ref.kind in kinds && Shown(x.ref.kind, section) then w(FileOf(upper, x)) else 0
  {
    if kinds != [] {
      var n := |kinds| - 1;
      assert kinds == kinds[..n] + [kinds[n]];
      SumKindsSnoc(w, upper, archived, x, kinds[..n], section);
      KindWeightSnoc(w, upper, archived, x, kinds[n], section);
    }
  }

  lemma {:induction false} UnseenKindHasNoFiles(archived: seq<Archived>, kind: Kind)
    requires kind !in Kinds(archived)
    ensures OfKind(archived, kind) == []
  {
    if archived != [] {
      UnseenKindHasNoFiles(archived[..|archived| - 1], kind);
      KindsListed(archived);
    }
  }

  /** A kind listed before its first file changes no sum. */
  lemma NewKindAddsNothing(
      w: File -> int, upper: string -> string, archived: seq<Archived>, kind: Kind, section: Section)
    requires kind !in Kinds(archived)
    ensures SumKinds(w, upper, archived, Kinds(archived) + [kind], section)
         == SumKinds(w, upper, archived, Kinds(archived), section)
  {
    UnseenKindHasNoFiles(archived, kind);
    assert (Kinds(archived) + [kind])[..|Kinds(archived)|] == Kinds(archived);
  }

  lemma SectionGrows(w: File -> int, upper: string -> string, archived: seq<Archived>, x: Archived, section: Section)
    ensures SumKinds(w, upper, archived + [x], Kinds(archived + [x]), section)
         == SumKinds(w, upper, archived, Kinds(archived), section)
            + if Shown(x.ref.kind, section) then w(FileOf(upper, x)) else 0
  {
    var kinds := Kinds(archived + [x]);
    assert (archived + [x])[..|archived|] == archived;
    if x.ref.kind !in Kinds(archived) {
      NewKindAddsNothing(w, upper, archived, x.ref.kind, section);
    }
    KindsInFirstOrder(archived + [x]);
    SumKindsSnoc(w, upper, archived, x, kinds, section);
  }

  lemma SumShownSnoc(w: File -> int, upper: string -> string, archived: seq<Archived>, x: Archived)
    ensures SumShown(w, upper, archived + [x])
         == SumShown(w, upper, archived)
            + (if Shown(x.ref.kind, EngineeringDrawings) then w(FileOf(upper, x)) else 0)
            + (if Shown(x.ref.kind, ManifestsAndSchedules) then w(FileOf(upper, x)) else 0)
  {
    assert (archived + [x])[..|archived|] == archived;
  }

  ghost predicate Conserved(w: File -> int, upper: string -> string, archived: seq<Archived>) {
    SumKinds(w, upper, archived, Kinds(archived), EngineeringDrawings)
    + SumKinds(w, upper, archived, Kinds(archived), ManifestsAndSchedules) == SumShown(w, upper, archived)
  }

  lemma ConservedSnoc(w: File -> int, upper: string -> string, archived: seq<Archived>, x: Archived)
    requires Conserved(w, upper, archived)
    ensures Conserved(w, upper, archived + [x])
  {
    SectionGrows(w, upper, archived, x, EngineeringDrawings);
    SectionGrows(w, upper, archived, x, ManifestsAndSchedules);
    SumShownSnoc(w, upper, archived, x);
  }

  lemma {:induction false} KindsConserveFiles(w: File -> int, upper: string -> string, archived: seq<Archived>)
    ensures Conserved(w, upper, archived)
  {
    if archived != [] {
      var n := |archived| - 1;
      KindsConserveFiles(w, upper, archived[..n]);
      ConservedSnoc(w, upper, archived[..n], archived[n]);
      assert archived[..n] + [archived[n]] == archived;
    }
  }

  /**
   Nothing is lost and nothing invented: under any weight, the archived rows of the two sections hold
   exactly the archived files whose kind has a row.
   */
  lemma RowsConserveFiles(w: File -> int, upper: string -> string, archived: seq<Archived>)
    ensures SumRows(w, RowsOf(upper, archived, Kinds(archived), EngineeringDrawings))
          + SumRows(w, RowsOf(upper, archived, Kinds(archived), ManifestsAndSchedules))
         == SumShown(w, upper, archived)
  {
    SumRowsIsSumKinds(w, upper, archived, Kinds(archived), EngineeringDrawings);
    SumRowsIsSumKinds(w, upper, archived, Kinds(archived), ManifestsAndSchedules);
    KindsConserveFiles(w, upper, archived);
  }

  // ---------- a row's files, in the archived refs' own fields ----------

  /** The sizes of the archived files whose kind has a row. */
  function ShownBytes(archived: seq<Archived>): int {
    if archived == [] then 0 else
      var last := archived[|archived| - 1];
      ShownBytes(archived[..|archived| - 1]) + if last.ref.kind == SldHmiSvg then 0 else last.size
  }

  /** How many archived files have a row. */
  function ShownFiles(archived: seq<Archived>): nat {
    if archived == [] then 0 else
      ShownFiles(archived[..|archived| - 1]) + if archived[|archived| - 1].ref.kind == SldHmiSvg then 0 else 1
  }

  lemma {:induction false} ShownTotals(upper: string -> string, archived: seq<Archived>)
    ensures SumShown(SizeOf, upper, archived) == ShownBytes(archived)
    ensures SumShown(One, upper, archived) == ShownFiles(archived)
  {
    if archived != [] {
      ShownTotals(upper, archived[..|archived| - 1]);
      KindsWithRows(archived[|archived| - 1].ref.kind);
    }
  }

  /** `at` lists, in order, the places of the kind's files. */
  ghost predicate PlacesOfKind(archived: seq<Archived>, kind: Kind, at: seq<nat>) {
    && (forall j, k :: 0 <= j < k < |at| ==> at[j] < at[k])
    && (forall i: nat :: i in at <==> i < |archived| && archived[i].ref.kind == kind)
  }

  /** The j-th file shows the format, size and URL of the archived file at the j-th place. */
  ghost predicate ShowsAt(upper: string -> string, archived: seq<Archived>, at: seq<nat>, files: seq<File>) {
    && |files| == |at|
    && (forall j :: 0 <= j < |at| ==> at[j] < |archived|)
    && (forall j :: 0 <= j < |at| ==> files[j].format == upper(archived[at[j]].ref.format))
    && (forall j :: 0 <= j < |at| ==> files[j].sizeBytes == archived[at[j]].size)
    && (forall j :: 0 <= j < |at| ==> files[j].url == archived[at[j]].ref.url)
  }

  /** The files are the kind's archived files, all of them, in order. */
  ghost predicate ShowsKind(upper: string -> string, archived: seq<Archived>, kind: Kind, files: seq<File>) {
    exists at: seq<nat> :: PlacesOfKind(archived, kind, at) && ShowsAt(upper, archived, at, files)
  }

  lemma PlacesSnoc(archived: seq<Archived>, x: Archived, kind: Kind, at: seq<nat>)
    requires PlacesOfKind(archived, kind, at)
    ensures PlacesOfKind(archived + [x], kind, if x.ref.kind == kind then at + [|archived|] else at)
  {
    forall i: nat | i < |archived| ensures (archived + [x])[i] == archived[i] {
    }
    forall j | 0 <= j < |at| ensures at[j] < |archived| {
      assert at[j] in at;
    }
    assert forall i: nat :: i in at + [|archived|] <==> i in at || i == |archived|;
  }

  lemma ShowsSnoc(upper: string -> string, archived: seq<Archived>, x: Archived, at: seq<nat>, files: seq<File>)
    requires ShowsAt(upper, archived, at, files)
    ensures ShowsAt(upper, archived + [x], at, files)
    ensures ShowsAt(upper, archived + [x], at + [|archived|], files + [FileOf(upper, x)])
  {
  }

  lemma FilesSnoc(upper: string -> string, archived: seq<Archived>, x: Archived)
    ensures Files(upper, archived + [x]) == Files(upper, archived) + [FileOf(upper, x)]
  {
    assert (archived + [x])[..|archived|] == archived;
  }

  /** The places and files of a kind. */
  ghost predicate KindFiles(upper: string -> string, archived: seq<Archived>, kind: Kind, at: seq<nat>) {
    PlacesOfKind(archived, kind, at) && ShowsAt(upper, archived, at, Files(upper, OfKind(archived, kind)))
  }

  lemma OfKindSnoc(archived: seq<Archived>, x: Archived, kind: Kind)
    ensures OfKind(archived + [x], kind)
         == if x.ref.kind == kind then OfKind(archived, kind) + [x] else OfKind(archived, kind)
  {
    assert (archived + [x])[..|archived|] == archived;
    assert OfKind(archived, kind) + [] == OfKind(archived, kind);
  }

  /** One more archived file: `all` is `archived` with `x` at its end, and so on. */
  lemma KindFilesSnoc(
      upper: string -> string, archived: seq<Archived>, x: Archived, all: seq<Archived>, kind: Kind,
      at: seq<nat>, after: seq<nat>)
    requires KindFiles(upper, archived, kind, at) && all == archived + [x]
    requires after == if x.ref.kind == kind then at + [|archived|] else at
    ensures KindFiles(upper, all, kind, after)
  {
    var own := OfKind(archived, kind);
    OfKindSnoc(archived, x, kind);
    PlacesSnoc(archived, x, kind, at);
    ShowsSnoc(upper, archived, x, at, Files(upper, own));
    FilesSnoc(upper, own, x);
  }

  lemma NoKindFiles(upper: string -> string, kind: Kind)
    ensures KindFiles(upper, [], kind, [])
  {
  }

  function PlacesOf(archived: seq<Archived>, kind: Kind): seq<nat> {
    if archived == [] then [] else
      var n := |archived| - 1;
      if archived[n].ref.kind == kind then PlacesOf(archived[..n], kind) + [n] else PlacesOf(archived[..n], kind)
  }

  lemma KindFilesStep(upper: string -> string, archived: seq<Archived>, kind: Kind, prefix: seq<Archived>)
    requires archived != [] && prefix == archived[..|archived| - 1]
    requires KindFiles(upper, prefix, kind, PlacesOf(prefix, kind))
    ensures KindFiles(upper, archived, kind, PlacesOf(archived, kind))
  {
    var last := archived[|archived| - 1];
    PlacesUnfold(archived, kind);
    KindFilesSnoc(upper, prefix, last, archived, kind, PlacesOf(prefix, kind), PlacesOf(archived, kind));
  }

  lemma PlacesUnfold(archived: seq<Archived>, kind: Kind)
    requires archived != []
    ensures var prefix, last := archived[..|archived| - 1], archived[|archived| - 1];
            && archived == prefix + [last]
            && PlacesOf(archived, kind)
               == if last.ref.kind == kind then PlacesOf(prefix, kind) + [|prefix|] else PlacesOf(prefix, kind)
  {
  }

  lemma {:induction false} KindFilesAt(upper: string -> string, archived: seq<Archived>, kind: Kind)
    ensures KindFiles(upper, archived, kind, PlacesOf(archived, kind))
  {
    if archived == [] {
      NoKindFiles(upper, kind);
    } else {
      KindFilesAt(upper, archived[..|archived| - 1], kind);
      KindFilesStep(upper, archived, kind, archived[..|archived| - 1]);
    }
  }

  /** A row of the section for this kind, with the kind's files. */
  ghost predicate IsKindsRow(
      upper: string -> string, archived: seq<Archived>, section: Section, kind: Kind, row: RowValue) {
    Metadata(kind) == Some((section, row.name)) && ShowsKind(upper, archived, kind, row.files)
  }

  ghost predicate IsSomeKindsRow(upper: string -> string, archived: seq<Archived>, section: Section, row: RowValue) {
    exists kind :: IsKindsRow(upper, archived, section, kind, row)
  }

  ghost predicate KindHasRow(
      upper: string -> string, archived: seq<Archived>, section: Section, kind: Kind, rows: seq<RowValue>) {
    exists j :: 0 <= j < |rows| && IsKindsRow(upper, archived, section, kind, rows[j])
  }

  /** Every row is a kind's, and every archived file whose kind is shown in the section has its kind's row. */
  ghost predicate SectionFits(upper: string -> string, archived: seq<Archived>, section: Section, rows: seq<RowValue>) {
    && (forall i :: 0 <= i < |rows| ==> IsSomeKindsRow(upper, archived, section, rows[i]))
    && (forall i :: 0 <= i < |archived| && Shown(archived[i].ref.kind, section) ==>
          KindHasRow(upper, archived, section, archived[i].ref.kind, rows))
  }

  lemma RowOfFits(upper: string -> string, archived: seq<Archived>, section: Section, kind: Kind)
    requires Shown(kind, section)
    ensures IsKindsRow(upper, archived, section, kind, RowOf(upper, archived, kind))
  {
    KindFilesAt(upper, archived, kind);
  }

  /** Rows for these kinds, one each for those shown in the section. */
  ghost predicate RowsForKinds(
      upper: string -> string, archived: seq<Archived>, section: Section, kinds: seq<Kind>, rows: seq<RowValue>) {
    && (forall i :: 0 <= i < |rows| ==> IsSomeKindsRow(upper, archived, section, rows[i]))
    && (forall kind :: kind in kinds && Shown(kind, section) ==> KindHasRow(upper, archived, section, kind, rows))
  }

  lemma KindKeepsRow(
      upper: string -> string, archived: seq<Archived>, section: Section, kind: Kind,
      rows: seq<RowValue>, row: RowValue)
    ensures KindHasRow(upper, archived, section, kind, rows) || IsKindsRow(upper, archived, section, kind, row) ==>
      KindHasRow(upper, archived, section, kind, rows + [row])
  {
    if j :| 0 <= j < |rows| && IsKindsRow(upper, archived, section, kind, rows[j]) {
      assert (rows + [row])[j] == rows[j];
    }
    assert (rows + [row])[|rows|] == row;
  }

  lemma OneMoreRow(
      upper: string -> string, archived: seq<Archived>, section: Section,
      kinds: seq<Kind>, rows: seq<RowValue>, kind: Kind)
    requires RowsForKinds(upper, archived, section, kinds, rows) && Shown(kind, section)
    ensures RowsForKinds(upper, archived, section, kinds + [kind], rows + [RowOf(upper, archived, kind)])
  {
    var row := RowOf(upper, archived, kind);
    RowOfFits(upper, archived, section, kind);
    forall other | other in kinds + [kind] && Shown(other, section)
      ensures KindHasRow(upper, archived, section, other, rows + [row])
    {
      KindKeepsRow(upper, archived, section, other, rows, row);
    }
    assert IsSomeKindsRow(upper, archived, section, row);
  }

  lemma {:induction false} RowsFitKinds(
      upper: string -> string, archived: seq<Archived>, section: Section, kinds: seq<Kind>)
    ensures RowsForKinds(upper, archived, section, kinds, RowsOf(upper, archived, kinds, section))
  {
    if kinds != [] {
      var n := |kinds| - 1;
      var before := RowsOf(upper, archived, kinds[..n], section);
      RowsFitKinds(upper, archived, section, kinds[..n]);
      assert kinds == kinds[..n] + [kinds[n]];
      if Shown(kinds[n], section) {
        OneMoreRow(upper, archived, section, kinds[..n], before, kinds[n]);
      } else {
        assert before + [] == before;
      }
    }
  }

  /** A section's rows hold, kind by kind, the archived files with their formats, sizes and URLs. */
  lemma RowsFitSection(upper: string -> string, archived: seq<Archived>, section: Section)
    ensures SectionFits(upper, archived, section, RowsOf(upper, archived, Kinds(archived), section))
  {
    RowsFitKinds(upper, archived, section, Kinds(archived));
    KindsAreListed(archived);
  }

  lemma KindsAreListed(archived: seq<Archived>)
    ensures forall i :: 0 <= i < |archived| ==> archived[i].ref.kind in Kinds(archived)
  {
    KindsListed(archived);
  }

  // ---------- codes ----------

  /** Cloud deliveries show the system images as "Edge & Connectivity". */
  function Letter(section: Section, cloud: bool): char {
    match section
    case SystemImages => if cloud then 'C' else 'A'
    case EngineeringDrawings => 'D'
    case ManifestsAndSchedules => 'M'
  }

  function Code(section: Section, cloud: bool, i: nat): string {
    [Letter(section, cloud)] + Str(i + 1)
  }

  /** The letters of the sections, and counting from 1. */
  lemma FirstCodes()
    ensures Code(SystemImages, false, 0) == "A1" && Code(SystemImages, true, 0) == "C1"
    ensures forall cloud: bool :: Code(EngineeringDrawings, cloud, 0) == "D1"
    ensures forall cloud: bool :: Code(ManifestsAndSchedules, cloud, 0) == "M1"
  {
    assert Str(1) == "1";
  }

  lemma CodeInjective(s: Section, i: nat, t: Section, j: nat, cloud: bool)
    requires Code(s, cloud, i) == Code(t, cloud, j)
    ensures s == t && i == j
  {
    assert Code(s, cloud, i)[0] == Letter(s, cloud) && Code(t, cloud, j)[0] == Letter(t, cloud);
    assert Code(s, cloud, i)[1..] == Str(i + 1) && Code(t, cloud, j)[1..] == Str(j + 1);
    StrInjective(i + 1, j + 1);
  }

  // ---------- the rows themselves ----------

  /** A row of the manifest; its code is stamped on it last. */
  class Row {
    const name: string
    const files: seq<File>
    var code: string

    constructor (name: string, files: seq<File>)
      ensures this.name == name && this.files == files && code == ""
    {
      this.name, this.files, code := name, files, "";
    }
  }

  function Value(row: Row): RowValue {
    RowValue(row.name, row.files)
  }

  function Values(rows: seq<Row>): seq<RowValue> {
    if rows == [] then [] else Values(rows[..|rows| - 1]) + [Value(rows[|rows| - 1])]
  }

  datatype DeploymentManifest = DeploymentManifest(
    system: seq<Row>, drawings: seq<Row>, schedules: seq<Row>,
    totalSizeBytes: int, totalFileCount: int, artifactCount: nat, cloud: bool)

  /** Where an object stands last in a list. */
  function LastOf(rows: seq<Row>, row: Row): (i: nat)
    requires row in rows
    ensures i < |rows| && rows[i] == row && row !in rows[i + 1..]
  {
    var n := |rows| - 1;
    if rows[n] == row then n else LastOf(rows[..n], row)
  }

  /** Stamp the codes of one section, in order. */
  method StampSection(rows: seq<Row>, section: Section, cloud: bool)
    modifies rows
    ensures StampedWith(rows, section, cloud)
  {
    for i := 0 to |rows|
      invariant forall r :: r in rows[..i] ==> r.code == Code(section, cloud, LastOf(rows[..i], r))
    {
      rows[i].code := Code(section, cloud, i);
      assert rows[..i + 1][..i] == rows[..i];
    }
    assert rows[..|rows|] == rows;
  }

  /** A row object standing in several places carries the code of the last one. */
  method AssignCodes(system: seq<Row>, drawings: seq<Row>, schedules: seq<Row>, cloud: bool)
    modifies system, drawings, schedules
    ensures forall r :: r in schedules ==> r.code == Code(ManifestsAndSchedules, cloud, LastOf(schedules, r))
    ensures forall r :: r in drawings && r !in schedules ==>
              r.code == Code(EngineeringDrawings, cloud, LastOf(drawings, r))
    ensures forall r :: r in system && r !in drawings && r !in schedules ==>
              r.code == Code(SystemImages, cloud, LastOf(system, r))
  {
    StampSection(system, SystemImages, cloud);
    StampSection(drawings, EngineeringDrawings, cloud);
    StampSection(schedules, ManifestsAndSchedules, cloud);
  }

  /** `by_kind`: each kind's files in order, the kinds in order of first appearance. */
  method GroupByKind(archived: seq<Archived>) returns (kinds: seq<Kind>, byKind: map<Kind, seq<Archived>>)
    ensures kinds == Kinds(archived)
    ensures forall k :: k in kinds ==> k in byKind && byKind[k] == OfKind(archived, k)
  {
    kinds, byKind := [], map[];
    for i := 0 to |archived|
      invariant kinds == Kinds(archived[..i])
      invariant forall k :: k in byKind <==> k in kinds
      invariant forall k :: k in kinds ==> byKind[k] == OfKind(archived[..i], k)
    {
      var kind := archived[i].ref.kind;
      assert archived[..i + 1][..i] == archived[..i];
      UnseenKindsHaveNoFiles(archived[..i]);
      if kind !in byKind {
        kinds := kinds + [kind];
        byKind := byKind[kind := []];
      }
      byKind := byKind[kind := byKind[kind] + [archived[i]]];
    }
    assert archived[..|archived|] == archived;
  }

  lemma UnseenKindsHaveNoFiles(archived: seq<Archived>)
    ensures forall kind :: kind !in Kinds(archived) ==> OfKind(archived, kind) == []
  {
    forall kind | kind !in Kinds(archived) ensures OfKind(archived, kind) == [] {
      UnseenKindHasNoFiles(archived, kind);
    }
  }

  ghost predicate DistinctRows(rows: seq<Row>) {
    forall i, j :: 0 <= i < j < |rows| ==> rows[i] != rows[j]
  }

  ghost predicate Apart(a: seq<Row>, b: seq<Row>) {
    forall r :: r in a ==> r !in b
  }

  method MakeFiles(upper: string -> string, archived: seq<Archived>) returns (files: seq<File>)
    ensures files == Files(upper, archived)
  {
    files := [];
    for i := 0 to |archived|
      invariant files == Files(upper, archived[..i])
    {
      assert archived[..i + 1][..i] == archived[..i];
      files := files + [FileOf(upper, archived[i])];
    }
    assert archived[..|archived|] == archived;
  }

  lemma ValuesSnoc(rows: seq<Row>, row: Row)
    ensures Values(rows + [row]) == Values(rows) + [Value(row)]
  {
    assert (rows + [row])[..|rows|] == rows;
  }

  lemma RowsStep(upper: string -> string, archived: seq<Archived>, kinds: seq<Kind>, i: nat, section: Section)
    requires i < |kinds|
    ensures RowsOf(upper, archived, kinds[..i + 1], section)
         == RowsOf(upper, archived, kinds[..i], section)
            + if Shown(kinds[i], section) then [RowOf(upper, archived, kinds[i])] else []
  {
    assert kinds[..i + 1][..i] == kinds[..i];
  }

  /** A new row at the end of a section. */
  method AddRow(upper: string -> string, name: string, archived: seq<Archived>, rows: seq<Row>, others: seq<Row>)
    returns (more: seq<Row>)
    requires DistinctRows(rows) && Apart(rows, others)
    ensures Values(more) == Values(rows) + [RowValue(name, Files(upper, archived))]
    ensures DistinctRows(more) && Apart(more, others)
    ensures fresh(Members(more) - Members(rows))
  {
    var files := MakeFiles(upper, archived);
    var row := new Row(name, files);
    ValuesSnoc(rows, row);
    more := rows + [row];
  }

  ghost function Members(rows: seq<Row>): set<Row> {
    set r | r in rows
  }

  lemma MembersAt(rows: seq<Row>)
    ensures forall i :: 0 <= i < |rows| ==> rows[i] in Members(rows)
  {
  }

  /** A new row for every kind that has one, in the section it belongs to. */
  method MakeRows(upper: string -> string, archived: seq<Archived>) returns (drawings: seq<Row>, schedules: seq<Row>)
    ensures Values(drawings) == RowsOf(upper, archived, Kinds(archived), EngineeringDrawings)
    ensures Values(schedules) == RowsOf(upper, archived, Kinds(archived), ManifestsAndSchedules)
    ensures DistinctRows(drawings) && DistinctRows(schedules) && Apart(drawings, schedules)
    ensures fresh(Members(drawings)) && fresh(Members(schedules))
  {
    var kinds, byKind := GroupByKind(archived);
    drawings, schedules := [], [];
    for i := 0 to |kinds|
      invariant Values(drawings) == RowsOf(upper, archived, kinds[..i], EngineeringDrawings)
      invariant Values(schedules) == RowsOf(upper, archived, kinds[..i], ManifestsAndSchedules)
      invariant DistinctRows(drawings) && DistinctRows(schedules) && Apart(drawings, schedules)
      invariant fresh(Members(drawings)) && fresh(Members(schedules))
    {
      RowsStep(upper, archived, kinds, i, EngineeringDrawings);
      RowsStep(upper, archived, kinds, i, ManifestsAndSchedules);
      var meta := Metadata(kinds[i]);
      if meta.Some? && meta.value.0 == EngineeringDrawings {
        drawings := AddRow(upper, meta.value.1, byKind[kinds[i]], drawings, schedules);
      } else if meta.Some? {
        schedules := AddRow(upper, meta.value.1, byKind[kinds[i]], schedules, drawings);
      }
    }
    assert kinds[..|kinds|] == kinds;
  }

  function SizeOf(f: File): int { f.sizeBytes }
  function One(f: File): int { 1 }

  /** `build`. The system images' rows come ready-made; the totals count every row's files. */
  method Build(upper: string -> string, archived: seq<Archived>, system: seq<Row>, cloud: bool)
    returns (m: DeploymentManifest)
    modifies system
    ensures m.system == system && m.cloud == cloud
    ensures Values(m.drawings) == RowsOf(upper, archived, Kinds(archived), EngineeringDrawings)
    ensures Values(m.schedules) == RowsOf(upper, archived, Kinds(archived), ManifestsAndSchedules)
    ensures SectionFits(upper, archived, EngineeringDrawings, Values(m.drawings))
    ensures SectionFits(upper, archived, ManifestsAndSchedules, Values(m.schedules))
    ensures m.totalSizeBytes == SumRows(SizeOf, Values(system)) + ShownBytes(archived)
    ensures m.totalFileCount == SumRows(One, Values(system)) + ShownFiles(archived)
    ensures m.artifactCount == |m.system| + |m.drawings| + |m.schedules|
    ensures Coded(m)
  {
    var drawings, schedules := MakeRows(upper, archived);
    MembersAt(drawings);
    MembersAt(schedules);
    assert fresh(drawings) && fresh(schedules);
    AssignCodes(system, drawings, schedules, cloud);
    var size := SumRows(SizeOf, Values(system)) + SumRows(SizeOf, Values(drawings))
        + SumRows(SizeOf, Values(schedules));
    var count := SumRows(One, Values(system)) + SumRows(One, Values(drawings)) + SumRows(One, Values(schedules));
    RowsConserveFiles(SizeOf, upper, archived);
    RowsConserveFiles(One, upper, archived);
    ShownTotals(upper, archived);
    RowsFitSection(upper, archived, EngineeringDrawings);
    RowsFitSection(upper, archived, ManifestsAndSchedules);
    m := DeploymentManifest(system, drawings, schedules, size, count, |system| + |drawings| + |schedules|, cloud);
  }

  /** Each row carries the code of its place; a system row given twice, that of its last place. */
  ghost predicate Coded(m: DeploymentManifest)
    reads m.system, m.drawings, m.schedules
  {
    && DistinctRows(m.drawings) && DistinctRows(m.schedules)
    && StampedWith(m.system, SystemImages, m.cloud)
    && StampedWith(m.drawings, EngineeringDrawings, m.cloud)
    && StampedWith(m.schedules, ManifestsAndSchedules, m.cloud)
  }

  ghost predicate StampedWith(rows: seq<Row>, section: Section, cloud: bool)
    reads rows
  {
    forall r :: r in rows ==> r.code == Code(section, cloud, LastOf(rows, r))
  }

  /** Rows that are different objects carry different codes, across all three sections. */
  lemma CodesAreDistinct(m: DeploymentManifest, r: Row, q: Row)
    requires Coded(m) && r in m.system + m.drawings + m.schedules && q in m.system + m.drawings + m.schedules
    ensures r.code == q.code ==> r == q
  {
    var s, i := PlaceOf(m, r);
    var t, j := PlaceOf(m, q);
    if r.code == q.code {
      CodeInjective(s, i, t, j, m.cloud);
    }
  }

  function RowsIn(m: DeploymentManifest, section: Section): seq<Row> {
    match section
    case SystemImages => m.system
    case EngineeringDrawings => m.drawings
    case ManifestsAndSchedules => m.schedules
  }

  lemma PlaceOf(m: DeploymentManifest, r: Row) returns (s: Section, i: nat)
    requires Coded(m) && r in m.system + m.drawings + m.schedules
    ensures i < |RowsIn(m, s)| && RowsIn(m, s)[i] == r && r.code == Code(s, m.cloud, i)
  {
    s := if r in m.system then SystemImages else if r in m.drawings then EngineeringDrawings else ManifestsAndSchedules;
    i := LastOf(RowsIn(m, s), r);
  }

  /** In a section without repeats the i-th row has the i-th code. */
  lemma CodesFollowTheRows(rows: seq<Row>, section: Section, cloud: bool, i: nat)
    requires StampedWith(rows, section, cloud) && DistinctRows(rows) && i < |rows|
    ensures rows[i].code == Code(section, cloud, i)
  {
    assert LastOf(rows, rows[i]) == i;
  }

}
