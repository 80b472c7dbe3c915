/**
 * The data shaping of the application component: the selection toggles, the
 * selection kept when the loaded algorithms are cleared, the pivot of the
 * rows into chart points, the distinct algorithm names, the radar scores, and
 * the guards on running and downloading.
 */
module App {
  import opened Wrappers
  import opened Types
  import opened Seqs
  import opened Algorithms
  import opened TestCases
  import opened ComplexityEstimator
  import opened Benchmark
  import opened ReportGenerator

  // ---------------------------------------------------------------- selections

  /** The algorithms selected when the page opens. */
  const DefaultAlgorithms: seq<string> := ["bubbleSort", "quickSort"]

  /** The test cases selected when the page opens. */
  const DefaultTestCases: seq<string> := ["small", "medium"]

  /** The test `k !== key`. */
  function NotKey(key: string): string -> bool {
    (k: string) => k != key
  }

  /**
   * `toggleAlgorithm` / `toggleTestCase`: a selected key is removed (every
   * occurrence of it), any other key is appended at the end.
   */
  function Toggle(prev: seq<string>, key: string): (next: seq<string>)
    ensures key in prev ==> key !in next && |next| < |prev|
    ensures key !in prev ==> |next| == |prev| + 1 && next[|prev|] == key && next[..|prev|] == prev
    ensures forall k :: k != key ==> (k in next <==> k in prev)
  {
    if key in prev then
      var i :| 0 <= i < |prev| && prev[i] == key;
      FilterDrops(prev, NotKey(key), i);
      Filter(prev, NotKey(key))
    else prev + [key]
  }

  /** A toggle leaves the other keys where they were relative to each other. */
  lemma ToggleKeepsOthers(prev: seq<string>, key: string)
    ensures Filter(Toggle(prev, key), NotKey(key)) == Filter(prev, NotKey(key))
  {
    if key in prev {
      FilterOfFilter(prev, NotKey(key), NotKey(key));
    } else {
      FilterAppend(prev, [key], NotKey(key));
      assert Filter([key], NotKey(key)) == [] by {
        assert [key][..0] == [];
      }
    }
  }

  /** Toggling an unselected key twice restores the selection. */
  lemma ToggleTwiceRestores(prev: seq<string>, key: string)
    requires key !in prev
    ensures Toggle(Toggle(prev, key), key) == prev
  {
    FilterAppend(prev, [key], NotKey(key));
    assert Filter([key], NotKey(key)) == [] by {
      assert [key][..0] == [];
    }
    FilterAll(prev, NotKey(key));
  }

  /** Toggling a selected key twice moves it, once, to the end. */
  lemma ToggleTwiceMovesToEnd(prev: seq<string>, key: string)
    requires key in prev
    ensures Toggle(Toggle(prev, key), key) == Filter(prev, NotKey(key)) + [key]
  {
  }

  /** The test `Object.prototype.hasOwnProperty.call(algorithms, key)`. */
  function IsBuiltIn(key: string): bool {
    key in BuiltIns
  }

  /** The selection `handleClearExternalAlgorithms` keeps: the built-in keys, in order. */
  function KeepBuiltIns(prev: seq<string>): (next: seq<string>)
    ensures forall k :: k in next <==> k in prev && k in BuiltIns
    ensures |next| <= |prev|
  {
    Filter(prev, IsBuiltIn)
  }

  /** Keeping the built-ins distributes over concatenation, so their order is kept. */
  lemma KeepBuiltInsAppend(a: seq<string>, b: seq<string>)
    ensures KeepBuiltIns(a + b) == KeepBuiltIns(a) + KeepBuiltIns(b)
  {
    FilterAppend(a, b, IsBuiltIn);
  }

  /** A selection of built-ins only is left as it is. */
  lemma KeepBuiltInsOfBuiltIns(prev: seq<string>)
    requires forall k :: k in prev ==> k in BuiltIns
    ensures KeepBuiltIns(prev) == prev
  {
    FilterAll(prev, IsBuiltIn);
  }

  /** `canRun`: both selections are non-empty. */
  predicate CanRun(algs: seq<string>, tests: seq<string>) {
    |algs| > 0 && |tests| > 0
  }

  /** A run can only fill the progress bar from a selection that enables the run button. */
  lemma FullProgressNeedsCanRun(catalogue: map<string, Algorithm>, algs: seq<string>, tests: seq<string>)
    ensures FinalProgress(catalogue, algs, tests) == 100.0 ==> CanRun(algs, tests)
  {
    FullProgressIffAllKnown(catalogue, algs, tests);
  }

  /** The selection the page opens with runs every pair it schedules, whatever is loaded. */
  lemma DefaultSelectionRunsFully(externals: map<string, Algorithm>)
    ensures CanRun(DefaultAlgorithms, DefaultTestCases)
    ensures FinalProgress(CombinedCatalogue(externals), DefaultAlgorithms, DefaultTestCases) == 100.0
  {
    BuiltInCatalogue();
    CatalogueShape();
    FullProgressIffAllKnown(CombinedCatalogue(externals), DefaultAlgorithms, DefaultTestCases);
  }

  // ---------------------------------------------------------------- selected names

  /** `selectedAlgoNames`: the distinct algorithm names of the rows, in order of first appearance. */
  function SelectedAlgoNames(results: seq<Sample>): (names: seq<string>)
    ensures NoDuplicates(names)
    ensures forall name :: name in names <==> exists row :: row in results && row.algorithm == name
    ensures forall i :: 0 <= i < |names| ==> names[i] in Names(results)
    ensures forall i, j :: 0 <= i < j < |names| ==> FirstIndex(Names(results), names[i]) < FirstIndex(Names(results), names[j])
  {
    DistinctOrdered(Names(results));
    forall name | name in Names(results)
      ensures exists row :: row in results && row.algorithm == name
    {
      var i :| 0 <= i < |results| && Names(results)[i] == name;
      assert results[i] in results;
    }
    forall row | row in results
      ensures row.algorithm in Names(results)
    {
      var i :| 0 <= i < |results| && results[i] == row;
      assert Names(results)[i] == row.algorithm;
    }
    Distinct(Names(results))
  }

  // ---------------------------------------------------------------- chart data

  /** One point of the bar chart: a test case and the time of each algorithm on it. */
  datatype ChartPoint = ChartPoint(testCase: string, times: map<string, real>)

  /** The test-case names of the rows, in order. */
  function TestCaseNames(rows: seq<Sample>): (names: seq<string>)
    ensures |names| == |rows|
    ensures forall i :: 0 <= i < |rows| ==> names[i] == rows[i].testCase
  {
    seq(|rows|, i requires 0 <= i < |rows| => rows[i].testCase)
  }

  /** The times recorded for `testCase`: for each algorithm, the time of its last row on it. */
  function TimesFor(rows: seq<Sample>, testCase: string): map<string, real> {
    if |rows| == 0 then map[]
    else
      var row := rows[|rows| - 1];
      var times := TimesFor(rows[..|rows| - 1], testCase);
      if row.testCase == testCase then times[row.algorithm := row.time] else times
  }

  /** An algorithm has a time on a test case exactly when some row measured it there. */
  lemma {:induction false} TimesForKeys(rows: seq<Sample>, testCase: string, algorithm: string)
    ensures algorithm in TimesFor(rows, testCase) <==>
      exists i :: 0 <= i < |rows| && rows[i].testCase == testCase && rows[i].algorithm == algorithm
    decreases |rows|
  {
    if |rows| > 0 {
      var init := rows[..|rows| - 1];
      TimesForKeys(init, testCase, algorithm);
      if exists i :: 0 <= i < |init| && init[i].testCase == testCase && init[i].algorithm == algorithm {
        var i :| 0 <= i < |init| && init[i].testCase == testCase && init[i].algorithm == algorithm;
        assert rows[i] == init[i];
      }
      if exists i :: 0 <= i < |rows| - 1 && rows[i].testCase == testCase && rows[i].algorithm == algorithm {
        var i :| 0 <= i < |rows| - 1 && rows[i].testCase == testCase && rows[i].algorithm == algorithm;
        assert init[i] == rows[i];
      }
    }
  }

  /** The time shown is that of the last row for the pair: a later row overwrites an earlier one. */
  lemma {:induction false} TimesForLast(rows: seq<Sample>, i: nat)
    requires i < |rows|
    requires forall j :: i < j < |rows| ==>
      !(rows[j].testCase == rows[i].testCase && rows[j].algorithm == rows[i].algorithm)
    ensures rows[i].algorithm in TimesFor(rows, rows[i].testCase)
    ensures TimesFor(rows, rows[i].testCase)[rows[i].algorithm] == rows[i].time
    decreases |rows|
  {
    if i < |rows| - 1 {
      var init := rows[..|rows| - 1];
      assert init[i] == rows[i];
      TimesForLast(init, i);
    }
  }

  /** A test case no row ran has no times. */
  lemma {:induction false} TimesForAbsent(rows: seq<Sample>, testCase: string)
    requires testCase !in TestCaseNames(rows)
    ensures TimesFor(rows, testCase) == map[]
    decreases |rows|
  {
    if |rows| > 0 {
      var init := rows[..|rows| - 1];
      assert forall i :: 0 <= i < |init| ==> TestCaseNames(init)[i] == TestCaseNames(rows)[i];
      TimesForAbsent(init, testCase);
    }
  }

  /** The chart points of the rows: one per distinct test case, in order of first appearance. */
  function Pivot(rows: seq<Sample>): (points: seq<ChartPoint>)
    ensures |points| == |Distinct(TestCaseNames(rows))|
    ensures forall k :: 0 <= k < |points| ==> points[k].testCase == Distinct(TestCaseNames(rows))[k]
  {
    var testCases := Distinct(TestCaseNames(rows));
    seq(|testCases|, k requires 0 <= k < |testCases| => ChartPoint(testCases[k], TimesFor(rows, testCases[k])))
  }

  lemma TestCaseNamesSnoc(rows: seq<Sample>, row: Sample)
    ensures TestCaseNames(rows + [row]) == TestCaseNames(rows) + [row.testCase]
    ensures (rows + [row])[..|rows|] == rows
  {
    assert (rows + [row])[..|rows|] == rows;
  }

  /** A row of a test case already charted updates that point only. */
  lemma PivotUpdate(rows: seq<Sample>, row: Sample, j: nat)
    requires j < |Pivot(rows)| && Pivot(rows)[j].testCase == row.testCase
    ensures Pivot(rows + [row]) ==
      Pivot(rows)[j := ChartPoint(row.testCase, Pivot(rows)[j].times[row.algorithm := row.time])]
  {
    TestCaseNamesSnoc(rows, row);
    var testCases := Distinct(TestCaseNames(rows));
    assert testCases[j] in testCases;
    DistinctSnoc(TestCaseNames(rows), row.testCase);
    assert Distinct(TestCaseNames(rows + [row])) == testCases;
  }

  /** A row of a new test case adds a point at the end. */
  lemma PivotExtend(rows: seq<Sample>, row: Sample)
    requires forall k :: 0 <= k < |Pivot(rows)| ==> Pivot(rows)[k].testCase != row.testCase
    ensures Pivot(rows + [row]) == Pivot(rows) + [ChartPoint(row.testCase, map[row.algorithm := row.time])]
  {
    TestCaseNamesSnoc(rows, row);
    var testCases := Distinct(TestCaseNames(rows));
    forall k | 0 <= k < |testCases|
      ensures testCases[k] != row.testCase
    {
      assert Pivot(rows)[k].testCase == testCases[k];
    }
    DistinctSnoc(TestCaseNames(rows), row.testCase);
    TimesForAbsent(rows, row.testCase);
  }

  /** `acc.find(item => item.testCase === testCase)`: the first point of `testCase`, if any. */
  method FindPoint(points: seq<ChartPoint>, testCase: string) returns (found: Option<nat>)
    ensures found.None? ==> forall k :: 0 <= k < |points| ==> points[k].testCase != testCase
    ensures found.Some? ==> found.value < |points| && points[found.value].testCase == testCase
    ensures found.Some? ==> forall k :: 0 <= k < found.value ==> points[k].testCase != testCase
  {
    for k := 0 to |points|
      invariant forall m :: 0 <= m < k ==> points[m].testCase != testCase
    {
      if points[k].testCase == testCase {
        return Some(k);
      }
    }
    return None;
  }

  /**
   * `chartData`: the `reduce` that records each row's time on the point of its
   * test case, adding a point the first time a test case is met.
   */
  method ChartData(results: seq<Sample>) returns (points: seq<ChartPoint>)
    ensures points == Pivot(results)
  {
    points := [];
    for i := 0 to |results|
      invariant points == Pivot(results[..i])
    {
      var row := results[i];
      assert results[..i + 1] == results[..i] + [row];
      var found := FindPoint(points, row.testCase);
      match found
      case Some(j) =>
        PivotUpdate(results[..i], row, j);
        points := points[j := ChartPoint(row.testCase, points[j].times[row.algorithm := row.time])];
      case None =>
        PivotExtend(results[..i], row);
        points := points + [ChartPoint(row.testCase, map[row.algorithm := row.time])];
    }
    assert results[..|results|] == results;
  }

  // ---------------------------------------------------------------- radar data

  /** One point of the radar chart. */
  datatype RadarPoint = RadarPoint(algorithm: string, performance: real)

  /** The average time of an algorithm's rows, or 0 when it has none. */
  function AverageTime(results: seq<Sample>, name: string): real {
    var rows := RowsOf(results, name);
    if |rows| > 0 then Mean(Times(rows)) else 0.0
  }

  /** The averages of the listed algorithms, in order. */
  function Averages(results: seq<Sample>, names: seq<string>): (avgs: seq<real>)
    ensures |avgs| == |names|
    ensures forall k :: 0 <= k < |names| ==> avgs[k] == AverageTime(results, names[k])
  {
    seq(|names|, k requires 0 <= k < |names| => AverageTime(results, names[k]))
  }

  /** The test `time > 0`. */
  function IsPositive(t: real): bool {
    t > 0.0
  }

  /** The smallest and largest positive average, or 0 and 0 when there is none. */
  function Extremes(avgs: seq<real>): (bounds: (real, real))
    ensures forall k :: 0 <= k < |avgs| && avgs[k] > 0.0 ==> bounds.0 <= avgs[k] <= bounds.1
    ensures Filter(avgs, IsPositive) != [] ==>
      (exists k :: 0 <= k < |avgs| && avgs[k] > 0.0 && avgs[k] == bounds.0)
      && (exists k :: 0 <= k < |avgs| && avgs[k] > 0.0 && avgs[k] == bounds.1)
  {
    var valid := Filter(avgs, IsPositive);
    forall k | 0 <= k < |avgs| && avgs[k] > 0.0
      ensures avgs[k] in valid
    {
      assert avgs[k] in avgs;
    }
    if |valid| > 0 then
      assert Min(valid) in avgs && Max(valid) in avgs;
      (Min(valid), Max(valid))
    else (0.0, 0.0)
  }

  /** The `performance` of an algorithm with average `avg`, against the extremes `lo` and `hi`. */
  function Score(avg: real, lo: real, hi: real): (p: real)
    requires avg > 0.0 ==> lo <= avg <= hi
    ensures 0.0 <= p <= 100.0
    ensures avg <= 0.0 ==> p == 0.0
    ensures avg > 0.0 && lo == hi ==> p == 100.0
    ensures avg > 0.0 && lo < hi && avg == lo ==> p == 100.0
    ensures avg > 0.0 && lo < hi && avg == hi ==> p == 0.0
  {
    if avg > 0.0 then
      if hi == lo then 100.0
      else
        ScoreRatio(avg, lo, hi);
        (hi - avg) / (hi - lo) * 100.0
    else 0.0
  }

  /**
   * A faster algorithm never scores lower: between distinct extremes the score
   * falls by `100 / (hi - lo)` for each unit of average time.
   */
  lemma ScoreMonotone(a1: real, a2: real, lo: real, hi: real)
    requires 0.0 < a1 <= a2 && lo <= a1 && a2 <= hi
    ensures Score(a1, lo, hi) >= Score(a2, lo, hi)
    ensures a1 < a2 ==> Score(a1, lo, hi) > Score(a2, lo, hi)
    ensures lo < hi ==> Score(a1, lo, hi) - Score(a2, lo, hi) == (a2 - a1) / (hi - lo) * 100.0
  {
    if lo < hi {
      var w := hi - lo;
      assert (hi - a1) / w - (hi - a2) / w == (a2 - a1) / w;
      if a1 < a2 {
        assert (a2 - a1) / w > 0.0;
      }
    }
  }

  lemma ScoreRatio(avg: real, lo: real, hi: real)
    requires lo <= avg <= hi && lo < hi
    ensures 0.0 <= (hi - avg) / (hi - lo) <= 1.0
    ensures avg == lo ==> (hi - avg) / (hi - lo) == 1.0
    ensures avg == hi ==> (hi - avg) / (hi - lo) == 0.0
  {
    var d := (hi - avg) / (hi - lo);
    assert d * (hi - lo) == hi - avg;
  }

  /** `radarData`: one point per distinct algorithm name, in order of first appearance. */
  function RadarData(results: seq<Sample>): (points: seq<RadarPoint>)
    ensures |points| == |Distinct(Names(results))|
    ensures forall k :: 0 <= k < |points| ==> points[k].algorithm == Distinct(Names(results))[k]
    ensures forall k :: 0 <= k < |points| ==> 0.0 <= points[k].performance <= 100.0
  {
    var names := Distinct(Names(results));
    var avgs := Averages(results, names);
    var bounds := Extremes(avgs);
    seq(|names|, k requires 0 <= k < |names| => RadarPoint(names[k], Score(avgs[k], bounds.0, bounds.1)))
  }

  /** Every listed algorithm has rows, so its average is that of its rows' times. */
  lemma ListedAverage(results: seq<Sample>, k: nat)
    requires k < |Distinct(Names(results))|
    ensures |RowsOf(results, Distinct(Names(results))[k])| > 0
  {
    var name := Distinct(Names(results))[k];
    assert name in Distinct(Names(results));
    NamedRows(results, name);
  }

  /**
   * The radar scale: the algorithm with the least positive average scores 100
   * and the one with the greatest scores 0; when all positive averages are equal,
   * every algorithm with a positive average scores 100.
   */
  lemma RadarExtremes(results: seq<Sample>, k: nat)
    requires k < |RadarData(results)|
    ensures var names := Distinct(Names(results));
      var avgs := Averages(results, names);
      var avg := AverageTime(results, names[k]);
      && (avg <= 0.0 ==> RadarData(results)[k].performance == 0.0)
      && (avg > 0.0 && (forall m :: 0 <= m < |names| && avgs[m] > 0.0 ==> avgs[m] == avg) ==>
            RadarData(results)[k].performance == 100.0)
      && (avg > 0.0 && (forall m :: 0 <= m < |names| && avgs[m] > 0.0 ==> avg <= avgs[m]) ==>
            RadarData(results)[k].performance == 100.0)
      && (avg > 0.0 && (forall m :: 0 <= m < |names| && avgs[m] > 0.0 ==> avgs[m] <= avg)
            && (exists m :: 0 <= m < |names| && 0.0 < avgs[m] < avg) ==>
            RadarData(results)[k].performance == 0.0)
  {
    var names := Distinct(Names(results));
    var avgs := Averages(results, names);
    var bounds := Extremes(avgs);
    var avg := avgs[k];
    if avg > 0.0 && Filter(avgs, IsPositive) != [] {
      var lo :| 0 <= lo < |avgs| && avgs[lo] > 0.0 && avgs[lo] == bounds.0;
      var hi :| 0 <= hi < |avgs| && avgs[hi] > 0.0 && avgs[hi] == bounds.1;
      assert avgs[lo] <= avg <= avgs[hi];
    }
    if avg > 0.0 {
      assert avg in Filter(avgs, IsPositive) by {
        assert avg in avgs;
      }
    }
  }

  // ---------------------------------------------------------------- page state

  /** The component's own state: the two selections, beside the benchmark runner's. */
  class Page {
    var selectedAlgorithms: seq<string>
    var selectedTestCases: seq<string>
    const benchmark: BenchmarkState

    constructor()
      ensures selectedAlgorithms == DefaultAlgorithms && selectedTestCases == DefaultTestCases
      ensures fresh(benchmark)
      ensures benchmark.results == [] && !benchmark.isRunning && benchmark.progress == 0.0
      ensures benchmark.externalAlgorithms == map[]
    {
      selectedAlgorithms := DefaultAlgorithms;
      selectedTestCases := DefaultTestCases;
      benchmark := new BenchmarkState();
    }

    method ToggleAlgorithm(key: string)
      modifies this`selectedAlgorithms
      ensures selectedAlgorithms == Toggle(old(selectedAlgorithms), key)
    {
      selectedAlgorithms := Toggle(selectedAlgorithms, key);
    }

    method ToggleTestCase(key: string)
      modifies this`selectedTestCases
      ensures selectedTestCases == Toggle(old(selectedTestCases), key)
    {
      selectedTestCases := Toggle(selectedTestCases, key);
    }

    /**
     * `handleClearExternalAlgorithms`: empties the loaded registry and drops the
     * selected keys that are not built-in.
     */
    method ClearExternalAlgorithms()
      modifies this`selectedAlgorithms, benchmark
      ensures benchmark.externalAlgorithms == map[]
      ensures selectedAlgorithms == KeepBuiltIns(old(selectedAlgorithms))
      ensures forall key :: key in selectedAlgorithms ==> key in CombinedCatalogue(benchmark.externalAlgorithms)
      ensures benchmark.results == old(benchmark.results) && benchmark.isRunning == old(benchmark.isRunning)
      ensures benchmark.progress == old(benchmark.progress)
    {
      benchmark.ClearExternalAlgorithms();
      selectedAlgorithms := KeepBuiltIns(selectedAlgorithms);
    }

    /** The run button is enabled. */
    predicate RunEnabled()
      reads this
    {
      CanRun(selectedAlgorithms, selectedTestCases)
    }

    /**
     * `handleDownloadReport`: no report when there are no rows (the alert);
     * otherwise the report of the rows, which then cannot fail.
     */
    method DownloadReport() returns (report: Option<Report>)
      ensures report.None? <==> |benchmark.results| == 0
      ensures report.Some? ==> IsReportOf(benchmark.results, report.value)
    {
      if |benchmark.results| == 0 {
        return None;
      }
      var generated := GenerateReport(benchmark.results);
      report := Some(generated.value);
    }
  }
}
