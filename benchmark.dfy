/**
 * The benchmark runner's state (`useBenchmark`): the measured rows, the
 * running flag, the progress percentage and the registry of loaded external
 * algorithms, with the operations that update them.
 *
 * Measured durations and the natural logarithm the estimator uses are inputs:
 * `timing` gives the duration of one run, `ln` stands for `Math.log`. Compiling
 * the single-run code with `new Function` is also an input (`compiled`).
 */
module Benchmark {
  import opened Wrappers
  import opened Types
  import opened Seqs
  import opened SortFacts
  import opened Strings
  import opened Algorithms
  import opened TestCases
  import opened ExternalAlgorithms
  import opened ComplexityEstimator

  /** The complexity a row carries until the estimator has seen all rows. */
  const Placeholder: string := "Estimating..."
  const CustomDefaultName: string := "Custom Algorithm"
  const BlankCodeMessage: string := "Please provide custom code."
  const NoTestCaseMessage: string := "Please select at least one test case."
  const CustomAsyncMessage: string := "Async custom code is not supported in single benchmark mode."

  // ---------------------------------------------------------------- catalogue

  /** `{ ...algorithms, ...externalAlgorithms }`: an external entry hides a built-in one with its key. */
  function CombinedCatalogue(externals: map<string, Algorithm>): (catalogue: map<string, Algorithm>)
    ensures catalogue.Keys == BuiltIns.Keys + externals.Keys
    ensures forall key :: key in externals ==> catalogue[key] == externals[key]
    ensures forall key :: key in BuiltIns && key !in externals ==> catalogue[key] == BuiltIns[key]
  {
    BuiltIns + externals
  }

  // ---------------------------------------------------------------- schedule

  /** The nested loops run algorithm `algKey` on test `testKey` only when both keys are known. */
  predicate Runs(catalogue: map<string, Algorithm>, algKey: string, testKey: string) {
    algKey in catalogue && testKey in Catalogue
  }

  /** The pairs the inner loop runs for `algKey`, in the order of `tests`. */
  function Row(catalogue: map<string, Algorithm>, algKey: string, tests: seq<string>): seq<(string, string)> {
    if |tests| == 0 then []
    else
      var testKey := tests[|tests| - 1];
      Row(catalogue, algKey, tests[..|tests| - 1]) + (if Runs(catalogue, algKey, testKey) then [(algKey, testKey)] else [])
  }

  /** The pairs `runBenchmarks` runs: algorithm-major, then test-case order, unknown keys skipped. */
  function Schedule(catalogue: map<string, Algorithm>, algs: seq<string>, tests: seq<string>): seq<(string, string)> {
    if |algs| == 0 then []
    else Schedule(catalogue, algs[..|algs| - 1], tests) + Row(catalogue, algs[|algs| - 1], tests)
  }

  /** Every selected algorithm and test case is known. */
  predicate AllKnown(catalogue: map<string, Algorithm>, algs: seq<string>, tests: seq<string>) {
    forall a, t :: a in algs && t in tests ==> Runs(catalogue, a, t)
  }

  lemma {:induction false} RowMembership(catalogue: map<string, Algorithm>, algKey: string, tests: seq<string>, p: (string, string))
    ensures p in Row(catalogue, algKey, tests) <==> p.0 == algKey && p.1 in tests && Runs(catalogue, p.0, p.1)
    decreases |tests|
  {
    if |tests| > 0 {
      var init := tests[..|tests| - 1];
      RowMembership(catalogue, algKey, init, p);
      assert tests == init + [tests[|tests| - 1]];
    }
  }

  /** A pair is run exactly when its algorithm and test case are selected and both are known. */
  lemma {:induction false} ScheduleMembership(catalogue: map<string, Algorithm>, algs: seq<string>, tests: seq<string>, p: (string, string))
    ensures p in Schedule(catalogue, algs, tests) <==> p.0 in algs && p.1 in tests && Runs(catalogue, p.0, p.1)
    decreases |algs|
  {
    if |algs| > 0 {
      var init := algs[..|algs| - 1];
      ScheduleMembership(catalogue, init, tests, p);
      RowMembership(catalogue, algs[|algs| - 1], tests, p);
      assert algs == init + [algs[|algs| - 1]];
    }
  }

  /** A row has one pair per known test case, and is full exactly when every test case is runnable. */
  lemma {:induction false} RowSize(catalogue: map<string, Algorithm>, algKey: string, tests: seq<string>)
    ensures |Row(catalogue, algKey, tests)| <= |tests|
    ensures |Row(catalogue, algKey, tests)| == |tests| <==> forall t :: t in tests ==> Runs(catalogue, algKey, t)
    decreases |tests|
  {
    if |tests| > 0 {
      var init := tests[..|tests| - 1];
      RowSize(catalogue, algKey, init);
      assert tests == init + [tests[|tests| - 1]];
    }
  }

  lemma MultiplyStep(a: nat, b: nat)
    requires a > 0
    ensures a * b == (a - 1) * b + b
  {
  }

  /** The schedule has at most one pair per selected combination, and all of them exactly when all keys are known. */
  lemma {:induction false} ScheduleSize(catalogue: map<string, Algorithm>, algs: seq<string>, tests: seq<string>)
    ensures |Schedule(catalogue, algs, tests)| <= |algs| * |tests|
    ensures |Schedule(catalogue, algs, tests)| == |algs| * |tests| <==> AllKnown(catalogue, algs, tests)
    decreases |algs|
  {
    if |algs| > 0 {
      var init, last := algs[..|algs| - 1], algs[|algs| - 1];
      ScheduleSize(catalogue, init, tests);
      RowSize(catalogue, last, tests);
      MultiplyStep(|algs|, |tests|);
      assert algs == init + [last];
      assert AllKnown(catalogue, algs, tests) <==>
        AllKnown(catalogue, init, tests) && forall t :: t in tests ==> Runs(catalogue, last, t);
    }
  }

  /** The schedule of a prefix of the algorithms is no longer than the whole schedule. */
  lemma {:induction false} SchedulePrefixSize(catalogue: map<string, Algorithm>, algs: seq<string>, tests: seq<string>, i: nat)
    requires i <= |algs|
    ensures |Schedule(catalogue, algs[..i], tests)| <= |Schedule(catalogue, algs, tests)|
    decreases |algs| - i
  {
    if i < |algs| {
      SchedulePrefixSize(catalogue, algs, tests, i + 1);
      assert algs[..i + 1][..i] == algs[..i];
    } else {
      assert algs[..i] == algs;
    }
  }

  /** The row for a prefix of the test cases is no longer than the whole row. */
  lemma {:induction false} RowPrefixSize(catalogue: map<string, Algorithm>, algKey: string, tests: seq<string>, j: nat)
    requires j <= |tests|
    ensures |Row(catalogue, algKey, tests[..j])| <= |Row(catalogue, algKey, tests)|
    decreases |tests| - j
  {
    if j < |tests| {
      RowPrefixSize(catalogue, algKey, tests, j + 1);
      assert tests[..j + 1][..j] == tests[..j];
    } else {
      assert tests[..j] == tests;
    }
  }

  /** The pairs run before step `j` of the inner loop within step `i` of the outer loop. */
  function Done(catalogue: map<string, Algorithm>, algs: seq<string>, tests: seq<string>, i: nat, j: nat): seq<(string, string)>
    requires i < |algs| && j <= |tests|
  {
    Schedule(catalogue, algs[..i], tests) + Row(catalogue, algs[i], tests[..j])
  }

  /** One step of the inner loop adds its pair when it runs. */
  lemma DoneStep(catalogue: map<string, Algorithm>, algs: seq<string>, tests: seq<string>, i: nat, j: nat)
    requires i < |algs| && j < |tests|
    ensures Runs(catalogue, algs[i], tests[j]) ==>
      Done(catalogue, algs, tests, i, j + 1) == Done(catalogue, algs, tests, i, j) + [(algs[i], tests[j])]
    ensures !Runs(catalogue, algs[i], tests[j]) ==> Done(catalogue, algs, tests, i, j + 1) == Done(catalogue, algs, tests, i, j)
  {
    assert tests[..j + 1][..j] == tests[..j];
  }

  /** The pairs run so far never outnumber the whole schedule. */
  lemma DoneSize(catalogue: map<string, Algorithm>, algs: seq<string>, tests: seq<string>, i: nat, j: nat)
    requires i < |algs| && j <= |tests|
    ensures |Done(catalogue, algs, tests, i, j)| <= |Schedule(catalogue, algs, tests)|
  {
    RowPrefixSize(catalogue, algs[i], tests, j);
    SchedulePrefixSize(catalogue, algs, tests, i + 1);
    assert algs[..i + 1][..i] == algs[..i];
  }

  /** The inner loop starts after the earlier algorithms' pairs and ends with those of algorithm `i`. */
  lemma DoneBounds(catalogue: map<string, Algorithm>, algs: seq<string>, tests: seq<string>, i: nat)
    requires i < |algs|
    ensures Done(catalogue, algs, tests, i, 0) == Schedule(catalogue, algs[..i], tests)
    ensures Done(catalogue, algs, tests, i, |tests|) == Schedule(catalogue, algs[..i + 1], tests)
  {
    assert tests[..0] == [];
    assert tests[..|tests|] == tests;
    assert algs[..i + 1][..i] == algs[..i];
  }

  /** The row for a prefix of the test cases starts the whole row. */
  lemma {:induction false} RowPrefix(catalogue: map<string, Algorithm>, algKey: string, tests: seq<string>, j: nat)
    requires j <= |tests|
    ensures Row(catalogue, algKey, tests[..j]) <= Row(catalogue, algKey, tests)
    decreases |tests| - j
  {
    if j < |tests| {
      RowPrefix(catalogue, algKey, tests, j + 1);
      assert tests[..j + 1][..j] == tests[..j];
    } else {
      assert tests[..j] == tests;
    }
  }

  /** The schedule of a prefix of the algorithms starts the whole schedule. */
  lemma {:induction false} SchedulePrefix(catalogue: map<string, Algorithm>, algs: seq<string>, tests: seq<string>, i: nat)
    requires i <= |algs|
    ensures Schedule(catalogue, algs[..i], tests) <= Schedule(catalogue, algs, tests)
    decreases |algs| - i
  {
    if i < |algs| {
      SchedulePrefix(catalogue, algs, tests, i + 1);
      assert algs[..i + 1][..i] == algs[..i];
    } else {
      assert algs[..i] == algs;
    }
  }

  /** The pairs run so far are the start of the schedule. */
  lemma DonePrefix(catalogue: map<string, Algorithm>, algs: seq<string>, tests: seq<string>, i: nat, j: nat)
    requires i < |algs| && j <= |tests|
    ensures Done(catalogue, algs, tests, i, j) <= Schedule(catalogue, algs, tests)
  {
    RowPrefix(catalogue, algs[i], tests, j);
    SchedulePrefix(catalogue, algs, tests, i + 1);
    assert algs[..i + 1][..i] == algs[..i];
    assert Schedule(catalogue, algs[..i + 1], tests) == Schedule(catalogue, algs[..i], tests) + Row(catalogue, algs[i], tests);
  }

  // ---------------------------------------------------------------- progress

  /** `(completed / totalTests) * 100`. */
  function Progress(completed: nat, total: nat): (p: real)
    requires 0 < total && completed <= total
    ensures 0.0 <= p <= 100.0
    ensures p == 100.0 <==> completed == total
  {
    RatioBounds(completed as real, total as real);
    (completed as real / total as real) * 100.0
  }

  lemma RatioBounds(c: real, t: real)
    requires 0.0 < t && 0.0 <= c <= t
    ensures 0.0 <= c / t <= 1.0
    ensures c / t == 1.0 <==> c == t
  {
    var d := c / t;
    assert d * t == c;
  }

  /** Each completed pair raises the progress by `100 / total`, so it never decreases. */
  lemma ProgressStep(completed: nat, total: nat)
    requires 0 < total && completed < total
    ensures Progress(completed + 1, total) == Progress(completed, total) + 100.0 / (total as real)
    ensures Progress(completed, total) < Progress(completed + 1, total)
  {
  }

  /** The progress shown after `completed` runs: 0 until the first run completes. */
  function Shown(completed: nat, total: nat): (p: real)
    requires completed <= total
    ensures 0.0 <= p <= 100.0
    ensures p == 100.0 <==> 0 < completed == total
  {
    if completed == 0 then 0.0 else Progress(completed, total)
  }

  /** The progress after a completed run: still 0 when nothing ran. */
  function FinalProgress(catalogue: map<string, Algorithm>, algs: seq<string>, tests: seq<string>): real {
    ScheduleSize(catalogue, algs, tests);
    Shown(|Schedule(catalogue, algs, tests)|, |algs| * |tests|)
  }

  /** A run ends at 100% exactly when something was selected and no selected key was skipped. */
  lemma FullProgressIffAllKnown(catalogue: map<string, Algorithm>, algs: seq<string>, tests: seq<string>)
    ensures FinalProgress(catalogue, algs, tests) == 100.0 <==>
      |algs| > 0 && |tests| > 0 && AllKnown(catalogue, algs, tests)
  {
    ScheduleSize(catalogue, algs, tests);
    if |algs| > 0 && |tests| > 0 {
      assert |algs| * |tests| > 0;
    }
  }

  // ---------------------------------------------------------------- measured rows

  /** The values `generateTestData` produces for `test`. */
  ghost predicate Generated(test: TestCase, data: seq<int>) {
    && multiset(data) == multiset(Ascending(test.size))
    && (test.reversed ==> data == Descending(test.size))
    && (!test.reversed && test.sorted ==> data == Ascending(test.size))
  }

  /** What calling `algorithm.code` on `input`, measured at `elapsed`, reports or throws. */
  ghost predicate Reports(algorithm: Algorithm, input: seq<int>, elapsed: real, r: Result<ExecutionResult, string>) {
    match algorithm.code
    case BuiltIn(kind) => r.Success? && r.value.time == elapsed && SortReport(kind, input, r.value)
    case Wrapped(routine) => r == WrapOutcome(algorithm.name, routine(input), elapsed)
  }

  /** `algo.code(testData)`: a built-in sort, or the wrapper around an external routine. */
  method Execute(algorithm: Algorithm, data: array<int>, elapsed: real) returns (r: Result<ExecutionResult, string>)
    ensures r.Failure? <==> algorithm.code.Wrapped? && Stops(algorithm.code.routine(data[..]))
    ensures r.Failure? ==> r.error == StopError(algorithm.code.routine(data[..]), AsyncMessage(algorithm.name))
    ensures r.Success? ==> r.value.time == elapsed
    ensures Reports(algorithm, data[..], elapsed, r)
  {
    match algorithm.code
    case BuiltIn(kind) =>
      var result := RunBuiltIn(kind, data, elapsed);
      r := Success(result);
    case Wrapped(routine) =>
      r := WrapOutcome(algorithm.name, routine(data[..]), elapsed);
  }

  /**
   * The row pushed for running `algorithm` on `test`: names, size, the measured
   * time, the space complexity of the entry, the placeholder complexity, and
   * the operation count of some run on data generated for the test.
   */
  ghost predicate MeasuredSample(algorithm: Algorithm, test: TestCase, elapsed: real, sample: Sample) {
    && sample == Sample(algorithm.name, test.name, Some(test.size), elapsed, sample.operations,
                        Placeholder, algorithm.spaceComplexity)
    && exists data: seq<int>, r: ExecutionResult ::
         Generated(test, data) && Reports(algorithm, data, elapsed, Success(r)) && r.operations == sample.operations
  }

  /** One measured row per scheduled pair, in schedule order. */
  ghost predicate MeasuredRows(catalogue: map<string, Algorithm>, schedule: seq<(string, string)>,
                               timing: (string, string) -> real, rows: seq<Sample>)
    decreases |schedule|
  {
    && |rows| == |schedule|
    && (|schedule| > 0 ==>
          var n := |schedule| - 1;
          && MeasuredRows(catalogue, schedule[..n], timing, rows[..n])
          && Runs(catalogue, schedule[n].0, schedule[n].1)
          && MeasuredSample(catalogue[schedule[n].0], Catalogue[schedule[n].1], timing(schedule[n].0, schedule[n].1), rows[n]))
  }

  lemma MeasuredRowsAppend(catalogue: map<string, Algorithm>, schedule: seq<(string, string)>,
                           timing: (string, string) -> real, rows: seq<Sample>, pair: (string, string), sample: Sample)
    requires MeasuredRows(catalogue, schedule, timing, rows)
    requires Runs(catalogue, pair.0, pair.1)
    requires MeasuredSample(catalogue[pair.0], Catalogue[pair.1], timing(pair.0, pair.1), sample)
    ensures MeasuredRows(catalogue, schedule + [pair], timing, rows + [sample])
  {
    assert (schedule + [pair])[..|schedule|] == schedule;
    assert (rows + [sample])[..|rows|] == rows;
  }

  /** Row `i` of the measured rows was measured for pair `i` of the schedule. */
  lemma {:induction false} MeasuredRowsAt(catalogue: map<string, Algorithm>, schedule: seq<(string, string)>,
                                          timing: (string, string) -> real, rows: seq<Sample>, i: nat)
    requires MeasuredRows(catalogue, schedule, timing, rows)
    requires i < |schedule|
    ensures i < |rows| && Runs(catalogue, schedule[i].0, schedule[i].1)
    ensures MeasuredSample(catalogue[schedule[i].0], Catalogue[schedule[i].1], timing(schedule[i].0, schedule[i].1), rows[i])
    decreases |schedule|
  {
    var n := |schedule| - 1;
    if i < n {
      var init, measured := schedule[..n], rows[..n];
      MeasuredRowsAt(catalogue, init, timing, measured, i);
      assert init[i] == schedule[i] && measured[i] == rows[i];
    }
  }

  /**
   * Running `algorithm` on some data generated for `test` stops the run with
   * `error`: the entry wraps a user routine that throws `error` on that data,
   * or returns a thenable there and `error` is the wrapper's async error.
   */
  ghost predicate PairStops(algorithm: Algorithm, test: TestCase, error: string) {
    && algorithm.code.Wrapped?
    && exists data ::
         && Generated(test, data)
         && Stops(algorithm.code.routine(data))
         && error == StopError(algorithm.code.routine(data), AsyncMessage(algorithm.name))
  }

  /** Pair `k` of `schedule` stops the run with `error`, after every earlier pair was measured. */
  ghost predicate StopsAt(catalogue: map<string, Algorithm>, schedule: seq<(string, string)>,
                          timing: (string, string) -> real, k: nat, error: string) {
    && k < |schedule|
    && Runs(catalogue, schedule[k].0, schedule[k].1)
    && (exists measured :: MeasuredRows(catalogue, schedule[..k], timing, measured))
    && PairStops(catalogue[schedule[k].0], Catalogue[schedule[k].1], error)
  }

  /**
   * How a run stops: with the error of the first scheduled pair whose routine
   * throws or returns a thenable, and the progress the `k` pairs completed
   * before it left.
   */
  ghost predicate RunFailure(catalogue: map<string, Algorithm>, algs: seq<string>, tests: seq<string>,
                             timing: (string, string) -> real, error: string, progress: real) {
    exists k :: StoppedAt(catalogue, algs, tests, timing, k, error, progress)
  }

  /** Pair `k` of the schedule stops the run with `error`, and the shown progress is that of `k` completed pairs. */
  ghost predicate StoppedAt(catalogue: map<string, Algorithm>, algs: seq<string>, tests: seq<string>,
                            timing: (string, string) -> real, k: nat, error: string, progress: real) {
    && StopsAt(catalogue, Schedule(catalogue, algs, tests), timing, k, error)
    && k <= |algs| * |tests|
    && progress == Shown(k, |algs| * |tests|)
  }

  /**
   * One step of the nested loops: generates the test data, runs the entry's
   * code on it and builds the row, or fails with the error the run stops with.
   */
  method MeasurePair(algorithm: Algorithm, test: TestCase, elapsed: real) returns (r: Result<Sample, string>)
    ensures r.Success? ==> MeasuredSample(algorithm, test, elapsed, r.value)
    ensures r.Failure? ==> PairStops(algorithm, test, r.error)
  {
    var data := GenerateTestData(test.size, test.sorted, test.reversed);
    var run := Execute(algorithm, data, elapsed);
    if run.Failure? {
      assert Generated(test, data[..]);
      return Failure(run.error);
    }
    var sample := Sample(algorithm.name, test.name, Some(test.size), run.value.time, run.value.operations,
                         Placeholder, algorithm.spaceComplexity);
    assert Generated(test, data[..]) && Reports(algorithm, data[..], elapsed, Success(run.value));
    r := Success(sample);
  }

  /**
   * One step of the inner loop of `runBenchmarks`: when both keys of the pair
   * (`algs[i]`, `tests[j]`) are known, measures it and appends its row.
   */
  method MeasureStep(catalogue: map<string, Algorithm>, algs: seq<string>, tests: seq<string>,
                     timing: (string, string) -> real, i: nat, j: nat, measured: seq<Sample>)
    returns (r: Result<seq<Sample>, string>)
    requires i < |algs| && j < |tests|
    requires MeasuredRows(catalogue, Done(catalogue, algs, tests, i, j), timing, measured)
    ensures r.Success? ==> MeasuredRows(catalogue, Done(catalogue, algs, tests, i, j + 1), timing, r.value)
    ensures r.Success? ==> |measured| <= |r.value| <= |measured| + 1 && r.value[..|measured|] == measured
    ensures r.Failure? ==>
      && Runs(catalogue, algs[i], tests[j]) && PairStops(catalogue[algs[i]], Catalogue[tests[j]], r.error)
      && |measured| < |Schedule(catalogue, algs, tests)|
    ensures r.Success? ==> |r.value| <= |Schedule(catalogue, algs, tests)|
  {
    DoneStep(catalogue, algs, tests, i, j);
    DoneSize(catalogue, algs, tests, i, j + 1);
    var algKey, testKey := algs[i], tests[j];
    if algKey in catalogue && testKey in Catalogue {
      var sample := MeasurePair(catalogue[algKey], Catalogue[testKey], timing(algKey, testKey));
      if sample.Failure? {
        return Failure(sample.error);
      }
      MeasuredRowsAppend(catalogue, Done(catalogue, algs, tests, i, j), timing, measured, (algKey, testKey), sample.value);
      return Success(measured + [sample.value]);
    }
    r := Success(measured);
  }

  /** A pair that stops right after the pairs run so far is the first stopping pair of the schedule. */
  lemma FailedStepStops(catalogue: map<string, Algorithm>, algs: seq<string>, tests: seq<string>,
                        timing: (string, string) -> real, i: nat, j: nat, measured: seq<Sample>, error: string)
    requires i < |algs| && j < |tests| && Runs(catalogue, algs[i], tests[j])
    requires MeasuredRows(catalogue, Done(catalogue, algs, tests, i, j), timing, measured)
    requires PairStops(catalogue[algs[i]], Catalogue[tests[j]], error)
    ensures StopsAt(catalogue, Schedule(catalogue, algs, tests), timing, |measured|, error)
  {
    var done, schedule := Done(catalogue, algs, tests, i, j), Schedule(catalogue, algs, tests);
    DoneStep(catalogue, algs, tests, i, j);
    DonePrefix(catalogue, algs, tests, i, j + 1);
    assert done + [(algs[i], tests[j])] <= schedule;
    assert schedule[..|measured|] == done;
    assert schedule[|measured|] == (algs[i], tests[j]);
  }

  /** On data generated for the sorted test case, bubble and insertion sort count no operation. */
  lemma NoOperationsOnSortedData(algorithm: Algorithm, test: TestCase, elapsed: real, sample: Sample)
    requires algorithm.code == BuiltIn(Bubble) || algorithm.code == BuiltIn(Insertion)
    requires test.sorted && !test.reversed
    requires MeasuredSample(algorithm, test, elapsed, sample)
    ensures sample.operations == 0
  {
    var data: seq<int>, r: ExecutionResult :| Generated(test, data) && Reports(algorithm, data, elapsed, Success(r))
      && r.operations == sample.operations;
    AscendingIsSorted(test.size);
    SortedHasNoInversions(data);
  }

  /** Selection sort's row always counts n(n-1)/2 operations for a test of size n. */
  lemma SelectionOperations(algorithm: Algorithm, test: TestCase, elapsed: real, sample: Sample)
    requires algorithm.code == BuiltIn(Selection)
    requires MeasuredSample(algorithm, test, elapsed, sample)
    ensures sample.operations == test.size * (test.size - 1) / 2
  {
    var data: seq<int>, r: ExecutionResult :| Generated(test, data) && Reports(algorithm, data, elapsed, Success(r))
      && r.operations == sample.operations;
    assert |data| == |multiset(data)| == |multiset(Ascending(test.size))| == test.size;
  }

  /**
   * What `runBenchmarks` yields: on success the estimated rows of one
   * measurement per scheduled pair, with the progress the schedule reaches;
   * on failure the error of the first scheduled pair that stops, with the
   * progress of the pairs completed before it, short of 100.
   */
  ghost predicate BenchmarkOutcome(catalogue: map<string, Algorithm>, algs: seq<string>, tests: seq<string>,
                                   timing: (string, string) -> real, ln: real -> real,
                                   r: Result<seq<Sample>, string>, progress: real) {
    match r
    case Success(rows) => EstimatedRows(catalogue, algs, tests, timing, ln, rows) && progress == FinalProgress(catalogue, algs, tests)
    case Failure(error) => RunFailure(catalogue, algs, tests, timing, error, progress) && 0.0 <= progress < 100.0
  }

  /** `rows` are the estimated rows of one measurement per scheduled pair. */
  ghost predicate EstimatedRows(catalogue: map<string, Algorithm>, algs: seq<string>, tests: seq<string>,
                                timing: (string, string) -> real, ln: real -> real, rows: seq<Sample>) {
    exists measured :: MeasuredRows(catalogue, Schedule(catalogue, algs, tests), timing, measured)
                       && rows == WithEstimatedComplexity(measured, ln)
  }

  /**
   * What the measuring loops yield: on success one measurement per scheduled
   * pair, with the progress the schedule reaches; on failure the error of
   * the first scheduled pair that stops, with the progress of the pairs
   * completed before it, short of 100.
   */
  ghost predicate MeasureOutcome(catalogue: map<string, Algorithm>, algs: seq<string>, tests: seq<string>,
                                 timing: (string, string) -> real, r: Result<seq<Sample>, string>, progress: real) {
    match r
    case Success(measured) =>
      MeasuredRows(catalogue, Schedule(catalogue, algs, tests), timing, measured)
      && progress == FinalProgress(catalogue, algs, tests)
    case Failure(error) => RunFailure(catalogue, algs, tests, timing, error, progress) && 0.0 <= progress < 100.0
  }

  /** A run that stopped at its first stopping pair, showing the progress of the pairs before it, has the failure outcome. */
  lemma StoppedOutcome(catalogue: map<string, Algorithm>, algs: seq<string>, tests: seq<string>,
                       timing: (string, string) -> real, i: nat, j: nat, measured: seq<Sample>,
                       error: string, progress: real)
    requires i < |algs| && j < |tests| && Runs(catalogue, algs[i], tests[j])
    requires MeasuredRows(catalogue, Done(catalogue, algs, tests, i, j), timing, measured)
    requires PairStops(catalogue[algs[i]], Catalogue[tests[j]], error)
    requires |measured| <= |algs| * |tests| && progress == Shown(|measured|, |algs| * |tests|)
    ensures MeasureOutcome(catalogue, algs, tests, timing, Failure(error), progress)
  {
    FailedStepStops(catalogue, algs, tests, timing, i, j, measured, error);
    ScheduleSize(catalogue, algs, tests);
    assert StoppedAt(catalogue, algs, tests, timing, |measured|, error, progress);
  }

  /** The measured rows with their complexity estimated; errors pass through. */
  function Estimated(r: Result<seq<Sample>, string>, ln: real -> real): (e: Result<seq<Sample>, string>)
    ensures e.Success? <==> r.Success?
    ensures e.Failure? ==> e.error == r.error
    ensures e.Success? ==> |e.value| == |r.value|
  {
    match r
    case Success(measured) => Success(WithEstimatedComplexity(measured, ln))
    case Failure(error) => Failure(error)
  }

  /** Estimating the measured rows turns a measuring outcome into a benchmark outcome. */
  lemma EstimatedOutcome(catalogue: map<string, Algorithm>, algs: seq<string>, tests: seq<string>,
                         timing: (string, string) -> real, ln: real -> real,
                         r: Result<seq<Sample>, string>, progress: real)
    requires MeasureOutcome(catalogue, algs, tests, timing, r, progress)
    ensures BenchmarkOutcome(catalogue, algs, tests, timing, ln, Estimated(r, ln), progress)
  {
    if r.Success? {
      assert MeasuredRows(catalogue, Schedule(catalogue, algs, tests), timing, r.value);
    }
  }

  /** A run none of whose scheduled pairs can throw or return a thenable succeeds. */
  lemma SucceedsUnlessAPairStops(catalogue: map<string, Algorithm>, algs: seq<string>, tests: seq<string>,
                                 timing: (string, string) -> real, ln: real -> real,
                                 r: Result<seq<Sample>, string>, progress: real)
    requires BenchmarkOutcome(catalogue, algs, tests, timing, ln, r, progress)
    requires forall p, error :: p in Schedule(catalogue, algs, tests) && Runs(catalogue, p.0, p.1) ==>
      !PairStops(catalogue[p.0], Catalogue[p.1], error)
    ensures r.Success?
  {
  }

  // ---------------------------------------------------------------- single run

  /** `customAlgoName.trim() || 'Custom Algorithm'`. */
  function CustomName(raw: string): (name: string)
    ensures !IsBlank(raw) ==> name == Trim(raw)
    ensures IsBlank(raw) ==> name == CustomDefaultName
    ensures name != ""
  {
    if Trim(raw) != "" then Trim(raw) else CustomDefaultName
  }

  /** The operation count of a single-run output: a numeric `operations` field, else 0. */
  function CustomOperations(output: Output): (operations: int)
    ensures output.Record? && output.operations.Some? ==> operations == output.operations.value
    ensures !(output.Record? && output.operations.Some?) ==> operations == 0
  {
    if output.Record? then output.operations.GetOr(0) else 0
  }

  /** The space complexity of a single-run output: a non-blank string field as it is, else `'Unknown'`. */
  function CustomSpace(output: Output): (space: string)
    ensures space == "Unknown" || (output.Record? && output.spaceComplexity == Some(space) && !IsBlank(space))
    ensures output.Record? && output.spaceComplexity.Some? && !IsBlank(output.spaceComplexity.value) ==>
      space == output.spaceComplexity.value
  {
    if output.Record? && output.spaceComplexity.Some? && Trim(output.spaceComplexity.value) != "" then
      output.spaceComplexity.value
    else "Unknown"
  }

  /** The row the single-run mode pushes for one test case. */
  function CustomSample(name: string, test: TestCase, output: Output, elapsed: real): Sample {
    Sample(name, test.name, Some(test.size), elapsed, CustomOperations(output), Placeholder, CustomSpace(output))
  }

  predicate IsKnownTest(testKey: string) {
    testKey in Catalogue
  }

  /** The selected test cases the single-run loop does not skip, in order. */
  function KnownTests(tests: seq<string>): (known: seq<string>)
    ensures forall t :: t in known <==> t in tests && t in Catalogue
  {
    Filter(tests, IsKnownTest)
  }

  /** The single-run row for `test`, from a call of the routine on data generated for it that did not stop the run. */
  ghost predicate CustomSampleOf(name: string, routine: UserRoutine, test: TestCase, elapsed: real, sample: Sample) {
    exists data: seq<int> ::
      && Generated(test, data)
      && !Stops(routine(data))
      && sample == CustomSample(name, test, routine(data).output, elapsed)
  }

  /**
   * The routine stops the single run on some data generated for `test`: it
   * throws `error` there, or returns a thenable and `error` is the async error.
   */
  ghost predicate CustomStops(routine: UserRoutine, test: TestCase, error: string) {
    exists data: seq<int> ::
      && Generated(test, data)
      && Stops(routine(data))
      && error == StopError(routine(data), CustomAsyncMessage)
  }

  /** Known test case `k` stops the single run with `error`, after each earlier one gave its row. */
  ghost predicate CustomStopsAt(name: string, routine: UserRoutine, known: seq<string>, timing: string -> real,
                                k: nat, error: string) {
    && k < |known|
    && known[k] in Catalogue
    && (exists rows :: CustomRows(name, routine, known[..k], timing, rows))
    && CustomStops(routine, Catalogue[known[k]], error)
  }

  /** One single-run row per known test case, in order. */
  ghost predicate CustomRows(name: string, routine: UserRoutine, known: seq<string>, timing: string -> real, rows: seq<Sample>)
    decreases |known|
  {
    && |rows| == |known|
    && (|known| > 0 ==>
          var n := |known| - 1;
          && CustomRows(name, routine, known[..n], timing, rows[..n])
          && known[n] in Catalogue
          && CustomSampleOf(name, routine, Catalogue[known[n]], timing(known[n]), rows[n]))
  }

  lemma CustomRowsAppend(name: string, routine: UserRoutine, known: seq<string>, timing: string -> real,
                         rows: seq<Sample>, testKey: string, sample: Sample)
    requires CustomRows(name, routine, known, timing, rows)
    requires testKey in Catalogue
    requires CustomSampleOf(name, routine, Catalogue[testKey], timing(testKey), sample)
    ensures CustomRows(name, routine, known + [testKey], timing, rows + [sample])
  {
    assert (known + [testKey])[..|known|] == known;
    assert (rows + [sample])[..|rows|] == rows;
  }

  /** Row `i` of the single-run rows was measured on known test case `i`. */
  lemma {:induction false} CustomRowsAt(name: string, routine: UserRoutine, known: seq<string>, timing: string -> real,
                                        rows: seq<Sample>, i: nat)
    requires CustomRows(name, routine, known, timing, rows)
    requires i < |known|
    ensures i < |rows| && known[i] in Catalogue
    ensures CustomSampleOf(name, routine, Catalogue[known[i]], timing(known[i]), rows[i])
    decreases |known|
  {
    var n := |known| - 1;
    if i < n {
      CustomRowsAt(name, routine, known[..n], timing, rows[..n], i);
    }
  }

  /** The known test cases of a prefix of the selection start those of the whole selection. */
  lemma KnownTestsPrefix(tests: seq<string>, j: nat)
    requires j <= |tests|
    ensures KnownTests(tests[..j]) <= KnownTests(tests)
  {
    FilterAppend(tests[..j], tests[j..], IsKnownTest);
    assert tests[..j] + tests[j..] == tests;
  }

  /** The known test cases of a longer selection. */
  lemma KnownTestsStep(tests: seq<string>, j: nat)
    requires j < |tests|
    ensures tests[j] in Catalogue ==> KnownTests(tests[..j + 1]) == KnownTests(tests[..j]) + [tests[j]]
    ensures tests[j] !in Catalogue ==> KnownTests(tests[..j + 1]) == KnownTests(tests[..j])
  {
    assert tests[..j + 1][..j] == tests[..j];
  }

  /** Keeps the rows of every algorithm except `name`. */
  function Without(name: string): Sample -> bool {
    (row: Sample) => row.algorithm != name
  }

  /** The single-run merge: earlier rows of other algorithms in order, then the new rows. */
  function MergeCustom(previous: seq<Sample>, added: seq<Sample>, name: string): seq<Sample> {
    Filter(previous, Without(name)) + added
  }

  /** After the merge, the rows named `name` are exactly the new ones. */
  lemma CustomMergeReplaces(previous: seq<Sample>, added: seq<Sample>, name: string)
    requires forall row :: row in added ==> row.algorithm == name
    ensures RowsOf(MergeCustom(previous, added, name), name) == added
  {
    FilterAppend(Filter(previous, Without(name)), added, IsOf(name));
    FilterNone(Filter(previous, Without(name)), IsOf(name));
    FilterAll(added, IsOf(name));
  }

  /** After the merge, the rows of any other algorithm are those it had before, in order. */
  lemma CustomMergeKeepsOthers(previous: seq<Sample>, added: seq<Sample>, name: string, other: string)
    requires other != name
    requires forall row :: row in added ==> row.algorithm == name
    ensures RowsOf(MergeCustom(previous, added, name), other) == RowsOf(previous, other)
  {
    FilterAppend(Filter(previous, Without(name)), added, IsOf(other));
    FilterNone(added, IsOf(other));
    FilterOfFilter(previous, Without(name), IsOf(other));
  }

  /** The estimated single-run rows all carry the custom name. */
  lemma EstimatedCustomRowsNamed(name: string, routine: UserRoutine, known: seq<string>, timing: string -> real,
                                 rows: seq<Sample>, ln: real -> real)
    requires CustomRows(name, routine, known, timing, rows)
    ensures forall row :: row in WithEstimatedComplexity(rows, ln) ==> row.algorithm == name
  {
    var estimated := WithEstimatedComplexity(rows, ln);
    forall row | row in estimated
      ensures row.algorithm == name
    {
      var i :| 0 <= i < |estimated| && estimated[i] == row;
      CustomRowsAt(name, routine, known, timing, rows, i);
      CustomSampleNamed(name, routine, Catalogue[known[i]], timing(known[i]), rows[i]);
      assert row.algorithm == rows[i].algorithm;
    }
  }

  lemma CustomSampleNamed(name: string, routine: UserRoutine, test: TestCase, elapsed: real, sample: Sample)
    requires CustomSampleOf(name, routine, test, elapsed, sample)
    ensures sample.algorithm == name
  {
  }

  /**
   * One step of the single-run loop: runs the routine on a copy of data
   * generated for `test` and builds the row, or fails with the error the
   * routine threw or, for a thenable, the async error.
   */
  method MeasureCustom(name: string, routine: UserRoutine, test: TestCase, elapsed: real) returns (r: Result<Sample, string>)
    ensures r.Success? ==> CustomSampleOf(name, routine, test, elapsed, r.value)
    ensures r.Failure? ==> CustomStops(routine, test, r.error)
  {
    var data := GenerateTestData(test.size, test.sorted, test.reversed);
    var input := data[..];
    var call := routine(input);
    assert Generated(test, input);
    if call.Raised? {
      return Failure(call.message);
    }
    if call.output.Thenable? {
      return Failure(CustomAsyncMessage);
    }
    r := Success(CustomSample(name, test, call.output, elapsed));
  }

  /** A test case that stops the loop right after the known ones before it is the first to stop it. */
  lemma FailedCustomStepStops(name: string, routine: UserRoutine, tests: seq<string>, timing: string -> real,
                              j: nat, measured: seq<Sample>, error: string)
    requires j < |tests| && tests[j] in Catalogue
    requires CustomRows(name, routine, KnownTests(tests[..j]), timing, measured)
    requires CustomStops(routine, Catalogue[tests[j]], error)
    ensures CustomStopsAt(name, routine, KnownTests(tests), timing, |measured|, error)
  {
    var before, known := KnownTests(tests[..j]), KnownTests(tests);
    KnownTestsStep(tests, j);
    KnownTestsPrefix(tests, j + 1);
    assert before + [tests[j]] <= known;
    assert known[..|measured|] == before;
    assert known[|measured|] == tests[j];
  }

  /**
   * The loop of the single-run mode: one row per known test case, in order,
   * or the error of the first test case on which the routine throws or
   * returns a thenable.
   */
  method MeasureCustomRows(name: string, routine: UserRoutine, tests: seq<string>, timing: string -> real)
    returns (rows: Result<seq<Sample>, string>)
    ensures rows.Success? ==> CustomRows(name, routine, KnownTests(tests), timing, rows.value)
    ensures rows.Failure? ==> exists k :: CustomStopsAt(name, routine, KnownTests(tests), timing, k, rows.error)
  {
    var measured: seq<Sample> := [];
    for j := 0 to |tests|
      invariant CustomRows(name, routine, KnownTests(tests[..j]), timing, measured)
    {
      KnownTestsStep(tests, j);
      var testKey := tests[j];
      if testKey in Catalogue {
        var r := MeasureCustom(name, routine, Catalogue[testKey], timing(testKey));
        if r.Failure? {
          FailedCustomStepStops(name, routine, tests, timing, j, measured, r.error);
          return Failure(r.error);
        }
        CustomRowsAppend(name, routine, KnownTests(tests[..j]), timing, measured, testKey, r.value);
        measured := measured + [r.value];
      }
    }
    assert tests[..|tests|] == tests;
    rows := Success(measured);
  }

  /**
   * What the single-run mode yields from the rows `previous`: the refusal of
   * blank code or an empty selection, the compile error, the error of the
   * first test case on which the routine throws or returns a thenable, or the
   * merged rows of a successful run.
   */
  ghost predicate CustomOutcome(previous: seq<Sample>, customCode: string, customAlgoName: string, tests: seq<string>,
                                compiled: Result<UserRoutine, string>, timing: string -> real, ln: real -> real,
                                r: Result<seq<Sample>, string>) {
    if IsBlank(customCode) then r == Failure(BlankCodeMessage)
    else if |tests| == 0 then r == Failure(NoTestCaseMessage)
    else if compiled.Failure? then r == Failure(compiled.error)
    else CustomResult(previous, CustomName(customAlgoName), compiled.value, tests, timing, ln, r)
  }

  /**
   * What the single-run loop and merge yield for a compiled routine: the error
   * of the first known test case that stops the run, or the merged rows.
   */
  ghost predicate CustomResult(previous: seq<Sample>, name: string, routine: UserRoutine, tests: seq<string>,
                               timing: string -> real, ln: real -> real, r: Result<seq<Sample>, string>) {
    match r
    case Failure(error) => exists k :: CustomStopsAt(name, routine, KnownTests(tests), timing, k, error)
    case Success(rows) =>
      exists measured ::
        && CustomRows(name, routine, KnownTests(tests), timing, measured)
        && rows == MergeCustom(previous, WithEstimatedComplexity(measured, ln), name)
  }

  /** The single-run mode on the rows `previous`, as a computation of its outcome. */
  method CustomRun(previous: seq<Sample>, customCode: string, customAlgoName: string, tests: seq<string>,
                   compiled: Result<UserRoutine, string>, timing: string -> real, ln: real -> real)
    returns (r: Result<seq<Sample>, string>)
    ensures CustomOutcome(previous, customCode, customAlgoName, tests, compiled, timing, ln, r)
  {
    if Trim(customCode) == "" {
      return Failure(BlankCodeMessage);
    }
    if |tests| == 0 {
      return Failure(NoTestCaseMessage);
    }
    if compiled.Failure? {
      return Failure(compiled.error);
    }
    var name := CustomName(customAlgoName);
    var rows := MeasureCustomRows(name, compiled.value, tests, timing);
    if rows.Failure? {
      return Failure(rows.error);
    }
    r := Success(MergeCustom(previous, WithEstimatedComplexity(rows.value, ln), name));
  }

  /** A single run whose routine cannot throw or return a thenable on any known test case succeeds. */
  lemma CustomSucceedsUnlessStopped(previous: seq<Sample>, customCode: string, customAlgoName: string, tests: seq<string>,
                                    compiled: Result<UserRoutine, string>, timing: string -> real, ln: real -> real,
                                    r: Result<seq<Sample>, string>)
    requires CustomOutcome(previous, customCode, customAlgoName, tests, compiled, timing, ln, r)
    requires !IsBlank(customCode) && |tests| > 0 && compiled.Success?
    requires forall testKey, error :: testKey in tests && testKey in Catalogue ==>
      !CustomStops(compiled.value, Catalogue[testKey], error)
    ensures r.Success?
  {
  }

  // ---------------------------------------------------------------- state

  /** The state `useBenchmark` keeps, and its operations. */
  class BenchmarkState {
    var results: seq<Sample>
    var isRunning: bool
    var progress: real
    var externalAlgorithms: map<string, Algorithm>

    constructor()
      ensures results == [] && !isRunning && progress == 0.0 && externalAlgorithms == map[]
    {
      results := [];
      isRunning := false;
      progress := 0.0;
      externalAlgorithms := map[];
    }

    /**
     * The inner loop of `runBenchmarks` for the algorithm `algs[i]`: runs it on
     * each known test case in order, raising the progress after each run, and
     * stops at the first wrapped routine that throws or returns a thenable.
     */
    method MeasureRow(catalogue: map<string, Algorithm>, algs: seq<string>, tests: seq<string>,
                      timing: (string, string) -> real, i: nat, before: seq<Sample>)
      returns (outcome: Result<seq<Sample>, string>, ghost stop: nat, ghost stoppedAfter: seq<Sample>)
      modifies this`progress
      requires i < |algs|
      requires MeasuredRows(catalogue, Schedule(catalogue, algs[..i], tests), timing, before)
      requires |before| <= |Schedule(catalogue, algs, tests)| <= |algs| * |tests|
      requires progress == Shown(|before|, |algs| * |tests|)
      ensures outcome.Success? ==>
        && MeasuredRows(catalogue, Schedule(catalogue, algs[..i + 1], tests), timing, outcome.value)
        && |outcome.value| <= |algs| * |tests|
        && progress == Shown(|outcome.value|, |algs| * |tests|)
      ensures outcome.Failure? ==>
        && stop < |tests| && Runs(catalogue, algs[i], tests[stop])
        && MeasuredRows(catalogue, Done(catalogue, algs, tests, i, stop), timing, stoppedAfter)
        && PairStops(catalogue[algs[i]], Catalogue[tests[stop]], outcome.error)
        && |stoppedAfter| <= |algs| * |tests| && progress == Shown(|stoppedAfter|, |algs| * |tests|)
    {
      var total := |algs| * |tests|;
      DoneBounds(catalogue, algs, tests, i);
      var measured := before;
      for j := 0 to |tests|
        invariant MeasuredRows(catalogue, Done(catalogue, algs, tests, i, j), timing, measured)
        invariant |measured| <= |Schedule(catalogue, algs, tests)|
        invariant progress == Shown(|measured|, total)
      {
        var r := MeasureStep(catalogue, algs, tests, timing, i, j, measured);
        if r.Failure? {
          return Failure(r.error), j, measured;
        }
        if |r.value| > |measured| {
          progress := Progress(|r.value|, total);
        }
        measured := r.value;
      }
      outcome, stop, stoppedAfter := Success(measured), 0, [];
    }

    /**
     * The nested loops of `runBenchmarks`: runs every scheduled pair in order,
     * raising the progress after each, and stops at the first wrapped routine
     * that throws or returns a thenable.
     */
    method MeasureAll(catalogue: map<string, Algorithm>, algs: seq<string>, tests: seq<string>,
                      timing: (string, string) -> real)
      returns (outcome: Result<seq<Sample>, string>)
      modifies this`progress
      requires progress == 0.0
      ensures MeasureOutcome(catalogue, algs, tests, timing, outcome, progress)
    {
      ScheduleSize(catalogue, algs, tests);
      var measured: seq<Sample> := [];
      for i := 0 to |algs|
        invariant MeasuredRows(catalogue, Schedule(catalogue, algs[..i], tests), timing, measured)
        invariant |measured| <= |Schedule(catalogue, algs, tests)|
        invariant progress == Shown(|measured|, |algs| * |tests|)
      {
        SchedulePrefixSize(catalogue, algs, tests, i + 1);
        var row, stop, stoppedAfter := MeasureRow(catalogue, algs, tests, timing, i, measured);
        if row.Failure? {
          StoppedOutcome(catalogue, algs, tests, timing, i, stop, stoppedAfter, row.error, progress);
          return row;
        }
        measured := row.value;
      }
      assert algs[..|algs|] == algs;
      outcome := Success(measured);
    }

    /**
     * `runBenchmarks`: measures the schedule of the built-in and loaded
     * entries, then replaces the rows with the estimated ones. The run always
     * ends not running; on failure the rows stay as they were.
     */
    method RunBenchmarks(algs: seq<string>, tests: seq<string>, timing: (string, string) -> real, ln: real -> real)
      returns (outcome: Result<(), string>, ghost run: Result<seq<Sample>, string>)
      modifies this
      ensures !isRunning && externalAlgorithms == old(externalAlgorithms)
      ensures outcome.Success? <==> run.Success?
      ensures run.Success? ==> results == run.value
      ensures run.Failure? ==> outcome.error == run.error && results == old(results)
      ensures BenchmarkOutcome(CombinedCatalogue(old(externalAlgorithms)), algs, tests, timing, ln, run, progress)
    {
      isRunning := true;
      progress := 0.0;
      var catalogue := CombinedCatalogue(externalAlgorithms);
      var measured := MeasureAll(catalogue, algs, tests, timing);
      EstimatedOutcome(catalogue, algs, tests, timing, ln, measured, progress);
      isRunning := false;
      var estimated := Estimated(measured, ln);
      run := estimated;
      outcome := Store(estimated);
    }

    /**
     * `runCustomCode`: blank code or an empty selection is refused before any
     * state changes. Otherwise the run starts and always ends not running; on
     * success the rows of the custom name are replaced by the new estimated
     * rows, and on failure the rows stay as they were.
     */
    method RunCustomCode(customCode: string, customAlgoName: string, tests: seq<string>,
                         compiled: Result<UserRoutine, string>, timing: string -> real, ln: real -> real)
      returns (outcome: Result<(), string>, ghost run: Result<seq<Sample>, string>)
      modifies this
      ensures IsBlank(customCode) || |tests| == 0 ==> unchanged(this)
      ensures !IsBlank(customCode) && |tests| > 0 ==>
        !isRunning && progress == old(progress) && externalAlgorithms == old(externalAlgorithms)
      ensures outcome.Success? <==> run.Success?
      ensures run.Success? ==> results == run.value
      ensures run.Failure? ==> outcome.error == run.error && results == old(results)
      ensures CustomOutcome(old(results), customCode, customAlgoName, tests, compiled, timing, ln, run)
    {
      var r := CustomRun(results, customCode, customAlgoName, tests, compiled, timing, ln);
      run := r;
      if IsBlank(customCode) || |tests| == 0 {
        return Failure(r.error), run;
      }
      isRunning := false;
      outcome := Store(r);
    }

    /** `setResults` on success; on failure the error is passed on and the rows stay as they were. */
    method Store(run: Result<seq<Sample>, string>) returns (outcome: Result<(), string>)
      modifies this`results
      ensures outcome.Success? <==> run.Success?
      ensures run.Success? ==> results == run.value
      ensures run.Failure? ==> outcome.error == run.error && results == old(results)
    {
      if run.Success? {
        results := run.value;
        outcome := Success(());
      } else {
        outcome := Failure(run.error);
      }
    }

    /**
     * `importExternalAlgorithms`: on a successful load the registry is replaced
     * by the loaded one and its size returned; on failure nothing changes.
     */
    method ImportExternalAlgorithms(source: string, evaluation: Evaluation) returns (r: Result<nat, LoadError>)
      modifies this
      ensures r.Success? <==> Load(source, evaluation).Success?
      ensures r.Success? ==> externalAlgorithms == Load(source, evaluation).value && r.value == |externalAlgorithms|
      ensures r.Failure? ==> r.error == Load(source, evaluation).error && externalAlgorithms == old(externalAlgorithms)
      ensures results == old(results) && isRunning == old(isRunning) && progress == old(progress)
    {
      var loaded := LoadExternalAlgorithms(source, evaluation);
      if loaded.Failure? {
        return Failure(loaded.error);
      }
      externalAlgorithms := loaded.value;
      r := Success(|loaded.value|);
    }

    /** `clearExternalAlgorithms`. */
    method ClearExternalAlgorithms()
      modifies this
      ensures externalAlgorithms == map[]
      ensures results == old(results) && isRunning == old(isRunning) && progress == old(progress)
    {
      externalAlgorithms := map[];
    }

    /** `clearResults`: no rows and no progress. */
    method ClearResults()
      modifies this
      ensures results == [] && progress == 0.0
      ensures isRunning == old(isRunning) && externalAlgorithms == old(externalAlgorithms)
    {
      results := [];
      progress := 0.0;
    }
  }
}
