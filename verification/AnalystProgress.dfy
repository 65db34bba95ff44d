/**
 The analyst server's startup stages, read from its log. A log line is what the patterns find in it:
 which stages' finish texts it holds, a download or an import reading of one seed, and its time stamp.
 */
module AnalystProgress {
  import opened Wrappers
  import opened Decimal

  datatype Seed = Vector | Graph

  /** A percentage the analyst printed; a download may carry its sizes in MiB. */
  datatype Reading = Reading(seed: Seed, percent: nat, mib: Option<(nat, nat)>)

  datatype Line = Line(finishes: set<nat>, download: Option<Reading>, imported: Option<Reading>, stamp: Option<real>)

  datatype Sample = Sample(when: Option<real>, percent: nat, mib: Option<(nat, nat)>)

  // ---------- samples ----------

  /** What a line says about a seed under one of the two patterns. */
  function SampleOf(line: Line, imports: bool, seed: Seed): Option<Sample> {
    var reading := if imports then line.imported else line.download;
    if reading.None? || reading.value.seed != seed then None
    else Some(Sample(line.stamp, reading.value.percent, reading.value.mib))
  }

  function Samples(log: seq<Line>, imports: bool, seed: Seed): seq<Sample> {
    if log == [] then [] else
      var n := |log| - 1;
      var last := SampleOf(log[n], imports, seed);
      Samples(log[..n], imports, seed) + if last.Some? then [last.value] else []
  }

  /** `_samples`. */
  method CollectSamples(log: seq<Line>, imports: bool, seed: Seed) returns (found: seq<Sample>)
    ensures found == Samples(log, imports, seed)
  {
    found := [];
    for i := 0 to |log|
      invariant found == Samples(log[..i], imports, seed)
    {
      assert log[..i + 1][..i] == log[..i];
      var sample := SampleOf(log[i], imports, seed);
      if sample.Some? {
        found := found + [sample.value];
      }
    }
    assert log[..|log|] == log;
  }

  lemma {:induction false} SamplesConcat(log: seq<Line>, more: seq<Line>, imports: bool, seed: Seed)
    ensures Samples(log + more, imports, seed) == Samples(log, imports, seed) + Samples(more, imports, seed)
  {
    if more == [] {
      assert log + more == log;
      assert Samples(log, imports, seed) + [] == Samples(log, imports, seed);
    } else {
      var n := |more| - 1;
      assert (log + more)[..|log| + n] == log + more[..n];
      SamplesConcat(log, more[..n], imports, seed);
    }
  }

  // ---------- the estimate ----------

  datatype Estimate = NoEstimate | Seconds(seconds: int) | DividesByZero

  function Stamped(samples: seq<Sample>): seq<Sample> {
    if samples == [] then []
    else (if samples[0].when.Some? then [samples[0]] else []) + Stamped(samples[1..])
  }

  /** `_eta`, from the first and the newest stamped sample. */
  function Eta(samples: seq<Sample>): Estimate {
    var stamped := Stamped(samples);
    if |stamped| < 2 then NoEstimate else
      StampedHaveTimes(samples);
      var first, last := stamped[0], stamped[|stamped| - 1];
      if last.percent <= first.percent then NoEstimate
      else if last.when == first.when then DividesByZero
      else
        var rate := (last.percent - first.percent) as real / (last.when.value - first.when.value);
        Seconds(Round((100 - last.percent) as real / rate))
  }

  lemma {:induction false} StampedHaveTimes(samples: seq<Sample>)
    ensures forall i :: 0 <= i < |Stamped(samples)| ==> Stamped(samples)[i].when.Some?
  {
    if samples != [] {
      StampedHaveTimes(samples[1..]);
    }
  }

  /** Time goes on from one stamped sample to the next, and no percentage passes 100. */
  ghost predicate ClockRuns(samples: seq<Sample>) {
    var stamped := Stamped(samples);
    && (forall i :: 0 <= i < |stamped| ==> stamped[i].when.Some? && stamped[i].percent <= 100)
    && (forall i, j :: 0 <= i < j < |stamped| ==> stamped[i].when.value < stamped[j].when.value)
  }

  lemma QuotientSign(a: real, b: real)
    requires a >= 0.0 && b > 0.0
    ensures a / b >= 0.0
  {
  }

  lemma QuotientPositive(a: real, b: real)
    requires a > 0.0 && b > 0.0
    ensures a / b > 0.0
  {
  }

  /** Then an estimate, when there is one, is never negative, and there is no division by zero. */
  lemma EtaIsNonNegative(samples: seq<Sample>)
    requires ClockRuns(samples)
    ensures !Eta(samples).DividesByZero?
    ensures Eta(samples).Seconds? ==> Eta(samples).seconds >= 0
  {
    var stamped := Stamped(samples);
    if Eta(samples).Seconds? {
      var first, last := stamped[0], stamped[|stamped| - 1];
      var gained, took := (last.percent - first.percent) as real, last.when.value - first.when.value;
      QuotientPositive(gained, took);
      QuotientSign((100 - last.percent) as real, gained / took);
    }
  }

  /** Progress is linear: every stamped sample lies on the line of this rate through this start. */
  ghost predicate Linear(samples: seq<Sample>, rate: real, start: real) {
    forall i :: 0 <= i < |Stamped(samples)| ==>
      Stamped(samples)[i].when.Some?
      && Stamped(samples)[i].percent as real == rate * (Stamped(samples)[i].when.value - start)
  }

  lemma SlopeOf(rate: real, a: real, b: real, x: real, y: real)
    requires a < b && x == rate * a && y == rate * b
    ensures (y - x) / (b - a) == rate
  {
    assert y - x == rate * (b - a);
  }

  lemma Remaining(rate: real, at: real, percent: real, end: real)
    requires rate > 0.0 && percent == rate * at && 100.0 == rate * end
    ensures (100.0 - percent) / rate == end - at
  {
    assert 100.0 - percent == rate * (end - at);
  }

  /** With linear progress the estimate is the time left to 100 %, rounded: at most half a second off. */
  lemma EtaIsExactWhenLinear(samples: seq<Sample>, rate: real, start: real, end: real)
    requires ClockRuns(samples) && Linear(samples, rate, start) && rate > 0.0 && 100.0 == rate * (end - start)
    requires Eta(samples).Seconds?
    ensures var stamped := Stamped(samples);
            var left := end - stamped[|stamped| - 1].when.value;
            Eta(samples).seconds == Round(left) && left - 0.5 <= Eta(samples).seconds as real <= left + 0.5
  {
    var stamped := Stamped(samples);
    var first, last := stamped[0], stamped[|stamped| - 1];
    SlopeOf(rate, first.when.value - start, last.when.value - start, first.percent as real, last.percent as real);
    assert (last.when.value - start) - (first.when.value - start) == last.when.value - first.when.value;
    Remaining(rate, last.when.value - start, last.percent as real, end - start);
  }

  // ---------- stages ----------

  datatype Phase = Waiting | Downloading | Importing | Done

  datatype StageProgress = StageProgress(
    phase: Phase, percent: Option<nat>, eta: Option<int>, mib: Option<(nat, nat)>)

  /** Packages, vector data, graph data, server: which seed each stage reports on, if any. */
  const STAGES: seq<Option<Seed>> := [None, Some(Vector), Some(Graph), None]

  predicate Finished(log: seq<Line>, stage: nat) {
    exists i :: 0 <= i < |log| && stage in log[i].finishes
  }

  function Shown(phase: Phase, sample: Sample, eta: Estimate, mib: Option<(nat, nat)>): Option<StageProgress> {
    match eta
    case NoEstimate => Some(StageProgress(phase, Some(sample.percent), None, mib))
    case Seconds(seconds) => Some(StageProgress(phase, Some(sample.percent), Some(seconds), mib))
    case DividesByZero => None
  }

  /** `_seed_stage`; None where the estimate raises. */
  function SeedStage(log: seq<Line>, seed: Seed): Option<StageProgress> {
    var imports, downloads := Samples(log, true, seed), Samples(log, false, seed);
    if imports != [] then Shown(Importing, imports[|imports| - 1], Eta(imports), None)
    else if downloads != [] && downloads[|downloads| - 1].percent >= 100
      then Some(StageProgress(Importing, None, None, None))
    else if downloads != [] then
      Shown(Downloading, downloads[|downloads| - 1], Eta(downloads), downloads[|downloads| - 1].mib)
    else Some(StageProgress(Waiting, None, None, None))
  }

  function StageOf(log: seq<Line>, stage: nat): Option<StageProgress>
    requires stage < 4
  {
    if Finished(log, stage) then Some(StageProgress(Done, None, None, None))
    else if STAGES[stage].Some? then SeedStage(log, STAGES[stage].value)
    else Some(StageProgress(Waiting, None, None, None))
  }

  // ---------- when the status raises ----------

  /** A line with a stamped reading of the seed. */
  predicate Speaks(line: Line, imports: bool, seed: Seed) {
    SampleOf(line, imports, seed).Some? && line.stamp.Some?
  }

  /** Lines `i` and `j` carry the seed's first and newest stamped readings: one stamp, a higher percentage. */
  ghost predicate SameTick(log: seq<Line>, imports: bool, seed: Seed, i: nat, j: nat) {
    && i < j < |log| && Speaks(log[i], imports, seed) && Speaks(log[j], imports, seed)
    && (forall k :: 0 <= k < |log| && Speaks(log[k], imports, seed) ==> i <= k <= j)
    && log[i].stamp == log[j].stamp
    && SampleOf(log[i], imports, seed).value.percent < SampleOf(log[j], imports, seed).value.percent
  }

  /** The readings the page estimates from: the imports, or, without any, a download still under way. */
  predicate EstimatesFrom(log: seq<Line>, imports: bool, seed: Seed) {
    var downloads := Samples(log, false, seed);
    if imports then Samples(log, true, seed) != []
    else Samples(log, true, seed) == [] && downloads != [] && downloads[|downloads| - 1].percent < 100
  }

  ghost predicate Ticked(log: seq<Line>, imports: bool, seed: Seed) {
    EstimatesFrom(log, imports, seed) && exists i: nat, j: nat :: SameTick(log, imports, seed, i, j)
  }

  ghost predicate SeedRaises(log: seq<Line>, seed: Seed) {
    Ticked(log, true, seed) || Ticked(log, false, seed)
  }

  /** What makes one stage raise, read off the log's lines. */
  ghost predicate StageRaises(log: seq<Line>, stage: nat)
    requires stage < 4
  {
    !Finished(log, stage) && STAGES[stage].Some? && SeedRaises(log, STAGES[stage].value)
  }

  lemma {:induction false} StampedConcat(a: seq<Sample>, b: seq<Sample>)
    ensures Stamped(a + b) == Stamped(a) + Stamped(b)
  {
    if a == [] {
      assert a + b == b;
    } else {
      assert (a + b)[1..] == a[1..] + b;
      StampedConcat(a[1..], b);
    }
  }

  lemma StampedOne(sample: Sample)
    ensures Stamped([sample]) == if sample.when.Some? then [sample] else []
  {
    assert [sample][1..] == [];
  }

  /** Where the stamped readings stand in the log. */
  ghost predicate StandAt(log: seq<Line>, imports: bool, seed: Seed, stamped: seq<Sample>, at: seq<nat>) {
    && |at| == |stamped|
    && (forall k :: 0 <= k < |at| ==>
          at[k] < |log| && Speaks(log[at[k]], imports, seed) && Some(stamped[k]) == SampleOf(log[at[k]], imports, seed))
    && (forall k, l :: 0 <= k < l < |at| ==> at[k] < at[l])
    && (forall i :: 0 <= i < |log| && Speaks(log[i], imports, seed) ==> i in at)
  }

  /** One more line adds its stamped reading, if it has one. */
  lemma StampedSnoc(log: seq<Line>, imports: bool, seed: Seed)
    requires log != []
    ensures var n := |log| - 1;
            Stamped(Samples(log, imports, seed))
            == Stamped(Samples(log[..n], imports, seed))
               + if Speaks(log[n], imports, seed) then [SampleOf(log[n], imports, seed).value] else []
  {
    var n := |log| - 1;
    var last := SampleOf(log[n], imports, seed);
    StampedConcat(Samples(log[..n], imports, seed), if last.Some? then [last.value] else []);
    if last.Some? {
      StampedOne(last.value);
    }
  }

  lemma StandAdd(log: seq<Line>, imports: bool, seed: Seed, stamped: seq<Sample>, at: seq<nat>)
    requires log != [] && StandAt(log[..|log| - 1], imports, seed, stamped, at) && Speaks(log[|log| - 1], imports, seed)
    ensures StandAt(log, imports, seed, stamped + [SampleOf(log[|log| - 1], imports, seed).value], at + [|log| - 1])
  {
    var n := |log| - 1;
    assert forall i :: 0 <= i < n ==> log[..n][i] == log[i];
    forall i | 0 <= i < |log| && Speaks(log[i], imports, seed) ensures i in at + [n] {
      if i < n {
        assert Speaks(log[..n][i], imports, seed);
      }
    }
  }

  lemma StandSkip(log: seq<Line>, imports: bool, seed: Seed, stamped: seq<Sample>, at: seq<nat>)
    requires log != [] && StandAt(log[..|log| - 1], imports, seed, stamped, at)
    requires !Speaks(log[|log| - 1], imports, seed)
    ensures StandAt(log, imports, seed, stamped, at)
  {
    var n := |log| - 1;
    assert forall i :: 0 <= i < n ==> log[..n][i] == log[i];
    forall i | 0 <= i < |log| && Speaks(log[i], imports, seed) ensures i in at {
      assert Speaks(log[..n][i], imports, seed);
    }
  }

  lemma {:induction false} StampedStandAt(log: seq<Line>, imports: bool, seed: Seed) returns (at: seq<nat>)
    ensures StandAt(log, imports, seed, Stamped(Samples(log, imports, seed)), at)
  {
    if log == [] {
      at := [];
    } else {
      var n := |log| - 1;
      at := StampedStandAt(log[..n], imports, seed);
      var before := Stamped(Samples(log[..n], imports, seed));
      StampedSnoc(log, imports, seed);
      if Speaks(log[n], imports, seed) {
        StandAdd(log, imports, seed, before, at);
        at := at + [n];
      } else {
        StandSkip(log, imports, seed, before, at);
        assert before + [] == before;
      }
    }
  }

  /** Two stamped readings or more have a first and a newest one, and these are what the estimate uses. */
  lemma EtaDividesIff(log: seq<Line>, imports: bool, seed: Seed)
    ensures Eta(Samples(log, imports, seed)).DividesByZero?
            <==> exists i: nat, j: nat :: SameTick(log, imports, seed, i, j)
  {
    var stamped := Stamped(Samples(log, imports, seed));
    var at := StampedStandAt(log, imports, seed);
    if |at| >= 2 {
      var first, last := at[0], at[|at| - 1];
      forall k | 0 <= k < |log| && Speaks(log[k], imports, seed) ensures first <= k <= last {
        var l :| 0 <= l < |at| && at[l] == k;
      }
      if Eta(Samples(log, imports, seed)).DividesByZero? {
        assert SameTick(log, imports, seed, first, last);
      }
    }
    if i: nat, j: nat :| SameTick(log, imports, seed, i, j) {
      TickEnds(log, imports, seed, stamped, at, i, j);
    }
  }

  lemma TickEnds(log: seq<Line>, imports: bool, seed: Seed, stamped: seq<Sample>, at: seq<nat>, i: nat, j: nat)
    requires StandAt(log, imports, seed, stamped, at) && SameTick(log, imports, seed, i, j)
    ensures |at| >= 2 && at[0] == i && at[|at| - 1] == j
  {
    var k :| 0 <= k < |at| && at[k] == i;
    var l :| 0 <= l < |at| && at[l] == j;
    assert at[0] >= i && at[|at| - 1] <= j;
  }

  /**
   A stage raises exactly when it is an unfinished seed stage and the readings it is estimated from went
   up between a first and a newest line with one and the same time stamp.
   */
  lemma StageRaisesIff(log: seq<Line>, stage: nat)
    requires stage < 4
    ensures StageOf(log, stage).None? <==> StageRaises(log, stage)
  {
    if STAGES[stage].Some? {
      EtaDividesIff(log, true, STAGES[stage].value);
      EtaDividesIff(log, false, STAGES[stage].value);
    }
  }

  method FinishIn(log: seq<Line>, stage: nat) returns (found: bool)
    ensures found <==> Finished(log, stage)
  {
    for i := 0 to |log|
      invariant forall j :: 0 <= j < i ==> stage !in log[j].finishes
    {
      if stage in log[i].finishes {
        return true;
      }
    }
    found := false;
  }

  method SeedProgress(log: seq<Line>, seed: Seed) returns (progress: Option<StageProgress>)
    ensures progress == SeedStage(log, seed)
  {
    var imports := CollectSamples(log, true, seed);
    var downloads := CollectSamples(log, false, seed);
    if imports != [] {
      progress := Shown(Importing, imports[|imports| - 1], Eta(imports), None);
    } else if downloads != [] && downloads[|downloads| - 1].percent >= 100 {
      progress := Some(StageProgress(Importing, None, None, None));
    } else if downloads != [] {
      var newest := downloads[|downloads| - 1];
      progress := Shown(Downloading, newest, Eta(downloads), newest.mib);
    } else {
      progress := Some(StageProgress(Waiting, None, None, None));
    }
  }

  method Stage(log: seq<Line>, stage: nat) returns (progress: Option<StageProgress>)
    requires stage < 4
    ensures progress == StageOf(log, stage)
  {
    var finished := FinishIn(log, stage);
    if finished {
      progress := Some(StageProgress(Done, None, None, None));
    } else if STAGES[stage].Some? {
      progress := SeedProgress(log, STAGES[stage].value);
    } else {
      progress := Some(StageProgress(Waiting, None, None, None));
    }
  }

  /** The four stages, or None where one of them raises. */
  function StatusOf(log: seq<Line>): Option<seq<StageProgress>> {
    if exists s: nat :: s < 4 && StageOf(log, s).None? then None
    else Some([StageOf(log, 0).value, StageOf(log, 1).value, StageOf(log, 2).value, StageOf(log, 3).value])
  }

  /** `stage_status`; None where one of the stages raises. */
  method StageStatus(log: seq<Line>) returns (stages: Option<seq<StageProgress>>)
    ensures stages == StatusOf(log)
    ensures stages.None? <==> exists s: nat :: s < 4 && StageRaises(log, s)
    ensures stages.Some? ==> |stages.value| == 4 && forall s: nat :: s < 4 ==> Some(stages.value[s]) == StageOf(log, s)
  {
    var made: seq<StageProgress> := [];
    for s := 0 to 4
      invariant |made| == s
      invariant forall k: nat :: k < s ==> Some(made[k]) == StageOf(log, k)
    {
      var progress := Stage(log, s);
      StageRaisesIff(log, s);
      if progress.None? {
        assert StageOf(log, s).None?;
        return None;
      }
      made := made + [progress.value];
    }
    forall s: nat | s < 4 ensures !StageRaises(log, s) {
      StageRaisesIff(log, s);
    }
    assert made == [made[0], made[1], made[2], made[3]];
    stages := Some(made);
  }

  /** A stage is shown as done exactly when some line holds its finish text. */
  lemma DoneIff(log: seq<Line>, stage: nat)
    requires stage < 4
    ensures StageOf(log, stage).Some? && StageOf(log, stage).value.phase.Done?
            <==> exists i :: 0 <= i < |log| && stage in log[i].finishes
  {
  }

  /** The i-th line holds the seed's newest reading of this sort. */
  predicate NewestAt(log: seq<Line>, imports: bool, seed: Seed, i: nat) {
    && i < |log| && SampleOf(log[i], imports, seed).Some?
    && forall k :: i < k < |log| ==> SampleOf(log[k], imports, seed).None?
  }

  lemma {:induction false} NewestSample(log: seq<Line>, imports: bool, seed: Seed, i: nat)
    requires NewestAt(log, imports, seed, i)
    ensures var samples := Samples(log, imports, seed);
            samples != [] && samples[|samples| - 1] == SampleOf(log[i], imports, seed).value
  {
    var n := |log| - 1;
    if i < n {
      assert SampleOf(log[n], imports, seed).None?;
      NewestSample(log[..n], imports, seed, i);
      assert Samples(log[..n], imports, seed) + [] == Samples(log[..n], imports, seed);
    }
  }

  lemma {:induction false} SomeNewest(log: seq<Line>, imports: bool, seed: Seed)
    ensures Samples(log, imports, seed) != [] ==> exists i: nat :: NewestAt(log, imports, seed, i)
  {
    if log != [] {
      var n := |log| - 1;
      if SampleOf(log[n], imports, seed).Some? {
        assert NewestAt(log, imports, seed, n);
      } else {
        SomeNewest(log[..n], imports, seed);
        assert Samples(log[..n], imports, seed) + [] == Samples(log[..n], imports, seed);
        if i: nat :| NewestAt(log[..n], imports, seed, i) {
          assert NewestAt(log, imports, seed, i);
        }
      }
    }
  }

  lemma NoReadings(log: seq<Line>, imports: bool, seed: Seed)
    requires forall k :: 0 <= k < |log| ==> SampleOf(log[k], imports, seed).None?
    ensures Samples(log, imports, seed) == []
  {
    SomeNewest(log, imports, seed);
    assert forall i: nat :: !NewestAt(log, imports, seed, i);
  }

  /** An unfinished seed that imports shows its newest import's percentage. */
  lemma ImportIsShown(log: seq<Line>, stage: nat, i: nat)
    requires stage < 4 && STAGES[stage].Some? && !Finished(log, stage) && StageOf(log, stage).Some?
    requires NewestAt(log, true, STAGES[stage].value, i)
    ensures var shown := StageOf(log, stage).value;
            shown.phase == Importing && shown.percent == Some(log[i].imported.value.percent) && shown.mib == None
  {
    NewestSample(log, true, STAGES[stage].value, i);
  }

  /** One that only downloads shows its newest download; a finished download shows an import without numbers. */
  lemma DownloadIsShown(log: seq<Line>, stage: nat, i: nat)
    requires stage < 4 && STAGES[stage].Some? && !Finished(log, stage) && StageOf(log, stage).Some?
    requires forall k :: 0 <= k < |log| ==> SampleOf(log[k], true, STAGES[stage].value).None?
    requires NewestAt(log, false, STAGES[stage].value, i)
    ensures var shown, newest := StageOf(log, stage).value, log[i].download.value;
            if newest.percent >= 100 then shown == StageProgress(Importing, None, None, None)
            else shown.phase == Downloading && shown.percent == Some(newest.percent) && shown.mib == newest.mib
  {
    NoReadings(log, true, STAGES[stage].value);
    NewestSample(log, false, STAGES[stage].value, i);
  }

  /** Without any reading it waits. */
  lemma WaitingIsShown(log: seq<Line>, stage: nat)
    requires stage < 4 && STAGES[stage].Some? && !Finished(log, stage)
    requires forall k :: 0 <= k < |log| ==>
      SampleOf(log[k], true, STAGES[stage].value).None? && SampleOf(log[k], false, STAGES[stage].value).None?
    ensures StageOf(log, stage) == Some(StageProgress(Waiting, None, None, None))
  {
    NoReadings(log, true, STAGES[stage].value);
    NoReadings(log, false, STAGES[stage].value);
  }

  // ---------- phases only move forward ----------

  function PhaseOf(log: seq<Line>, stage: nat): Phase
    requires stage < 4
  {
    if Finished(log, stage) then Done
    else if STAGES[stage].None? then Waiting
    else
      var imports, downloads := Samples(log, true, STAGES[stage].value), Samples(log, false, STAGES[stage].value);
      if imports != [] then Importing
      else if downloads == [] then Waiting
      else if downloads[|downloads| - 1].percent >= 100 then Importing
      else Downloading
  }

  /** The phase is the one shown, whenever the page shows one. */
  lemma PhaseIsShown(log: seq<Line>, stage: nat)
    requires stage < 4
    ensures StageOf(log, stage).Some? ==> StageOf(log, stage).value.phase == PhaseOf(log, stage)
  {
  }

  function Rank(phase: Phase): nat {
    match phase
    case Waiting => 0
    case Downloading => 1
    case Importing => 2
    case Done => 3
  }

  /** A download reading of the stage below 100 arrives after one that had reached it, and nothing else has happened. */
  predicate DownloadSlips(log: seq<Line>, more: seq<Line>, stage: nat)
    requires stage < 4
  {
    && STAGES[stage].Some?
    && !Finished(log + more, stage)
    && Samples(log + more, true, STAGES[stage].value) == []
    && var before, after := Samples(log, false, STAGES[stage].value), Samples(more, false, STAGES[stage].value);
       before != [] && before[|before| - 1].percent >= 100 && after != [] && after[|after| - 1].percent < 100
  }

  lemma FinishedStays(log: seq<Line>, more: seq<Line>, stage: nat)
    requires Finished(log, stage)
    ensures Finished(log + more, stage)
  {
    var i :| 0 <= i < |log| && stage in log[i].finishes;
    assert (log + more)[i] == log[i];
  }

  /** As the log grows, a stage's phase goes back exactly when its download percentage slips below 100 again. */
  lemma PhaseGoesBackIff(log: seq<Line>, more: seq<Line>, stage: nat)
    requires stage < 4
    ensures Rank(PhaseOf(log + more, stage)) < Rank(PhaseOf(log, stage)) <==> DownloadSlips(log, more, stage)
  {
    if Finished(log, stage) {
      FinishedStays(log, more, stage);
    }
    if STAGES[stage].Some? {
      SamplesConcat(log, more, true, STAGES[stage].value);
      SamplesConcat(log, more, false, STAGES[stage].value);
    }
  }

  /** A seed's download percentages never fall. */
  ghost predicate NeverFalls(samples: seq<Sample>) {
    forall i, j :: 0 <= i <= j < |samples| ==> samples[i].percent <= samples[j].percent
  }

  lemma SlipFalls(log: seq<Line>, more: seq<Line>, stage: nat)
    requires stage < 4 && DownloadSlips(log, more, stage)
    ensures !NeverFalls(Samples(log + more, false, STAGES[stage].value))
  {
    var seed := STAGES[stage].value;
    SamplesConcat(log, more, false, seed);
    var all, before, after := Samples(log + more, false, seed), Samples(log, false, seed), Samples(more, false, seed);
    assert all[|before| - 1] == before[|before| - 1] && all[|all| - 1] == after[|after| - 1];
  }

  /** Then every phase only moves forward. */
  lemma PhasesMoveForward(log: seq<Line>, more: seq<Line>, stage: nat)
    requires stage < 4
    requires STAGES[stage].Some? ==> NeverFalls(Samples(log + more, false, STAGES[stage].value))
    ensures Rank(PhaseOf(log, stage)) <= Rank(PhaseOf(log + more, stage))
  {
    PhaseGoesBackIff(log, more, stage);
    if DownloadSlips(log, more, stage) {
      SlipFalls(log, more, stage);
    }
  }

  /** A restarted download: the page goes from importing back to downloading. */
  lemma RestartGoesBack()
    ensures var full := Line({}, Some(Reading(Vector, 100, None)), None, None);
            var again := Line({}, Some(Reading(Vector, 5, None)), None, None);
            PhaseOf([full], 1) == Importing && PhaseOf([full] + [again], 1) == Downloading
  {
    var full := Line({}, Some(Reading(Vector, 100, None)), None, None);
    var again := Line({}, Some(Reading(Vector, 5, None)), None, None);
    SamplesConcat([full], [again], true, Vector);
    SamplesConcat([full], [again], false, Vector);
    assert [full][..0] == [] && [again][..0] == [];
    assert Samples([full], false, Vector) == [Sample(None, 100, None)];
    assert Samples([again], false, Vector) == [Sample(None, 5, None)];
  }

  /** Two readings within one clock tick: the whole status raises instead of showing a page. */
  lemma EqualStampsRaise(at: real)
    ensures var log := [Line({}, None, Some(Reading(Graph, 1, None)), Some(at))]
                       + [Line({}, None, Some(Reading(Graph, 2, None)), Some(at))];
            StageOf(log, 2).None?
  {
    var one := Line({}, None, Some(Reading(Graph, 1, None)), Some(at));
    var two := Line({}, None, Some(Reading(Graph, 2, None)), Some(at));
    SamplesConcat([one], [two], true, Graph);
    assert [one][..0] == [] && [two][..0] == [];
    var samples := Samples([one] + [two], true, Graph);
    assert samples == [Sample(Some(at), 1, None), Sample(Some(at), 2, None)];
    var last := samples[1..];
    assert last == [Sample(Some(at), 2, None)] && last[1..] == [];
    assert Stamped(last) == [last[0]] + [];
    assert Stamped(samples) == [samples[0]] + Stamped(last);
  }
}
