/**
 * `generateReport`: the contents of the plain-text report, without its text
 * layout. The report lists one numbered block per row, then one summary per
 * algorithm, then the fastest row.
 */
module ReportGenerator {
  import opened Wrappers
  import opened Types
  import opened Seqs
  import opened ComplexityEstimator

  /**
   * One numbered block of the results section. `operations` is `None` where
   * `N/A` is printed.
   */
  datatype Block = Block(
    number: nat,
    algorithm: string,
    testCase: string,
    time: real,
    operations: Option<int>,
    timeComplexity: string,
    spaceComplexity: string)

  /** The summary lines of one algorithm. */
  datatype Summary = Summary(algorithm: string, average: real, min: real, max: real, testsRun: nat)

  datatype Report = Report(blocks: seq<Block>, summaries: seq<Summary>, fastest: Sample)

  /** The `TypeError` an initial-value-less `reduce` raises on an empty array. */
  const EmptyReduceMessage: string := "Reduce of empty array with no initial value"

  // ---------------------------------------------------------------- result blocks

  /** The block the `forEach` writes for `row` at position `idx`. */
  predicate IsBlockOf(b: Block, idx: nat, row: Sample) {
    && b.number == idx + 1
    && b.algorithm == row.algorithm && b.testCase == row.testCase && b.time == row.time
    && (b.operations.None? <==> row.operations == 0)
    && (b.operations.Some? ==> b.operations.value == row.operations)
    && b.timeComplexity == row.timeComplexity && b.spaceComplexity == row.spaceComplexity
  }

  /**
   * The results section: one block per row, in order, numbered from 1; a zero
   * operation count is falsy, so `|| 'N/A'` prints `N/A` for it.
   */
  method ResultBlocks(results: seq<Sample>) returns (blocks: seq<Block>)
    ensures |blocks| == |results|
    ensures forall i :: 0 <= i < |results| ==> IsBlockOf(blocks[i], i, results[i])
  {
    blocks := [];
    for idx := 0 to |results|
      invariant |blocks| == idx
      invariant forall i :: 0 <= i < idx ==> IsBlockOf(blocks[i], i, results[i])
    {
      var row := results[idx];
      var operations := if row.operations == 0 then None else Some(row.operations);
      blocks := blocks + [Block(idx + 1, row.algorithm, row.testCase, row.time, operations,
                                row.timeComplexity, row.spaceComplexity)];
    }
  }

  // ---------------------------------------------------------------- summary statistics

  /** The times of `rows`, in order. */
  function Times(rows: seq<Sample>): (ts: seq<real>)
    ensures |ts| == |rows|
    ensures forall i :: 0 <= i < |rows| ==> ts[i] == rows[i].time
  {
    seq(|rows|, i requires 0 <= i < |rows| => rows[i].time)
  }

  lemma NamesSnoc(rows: seq<Sample>, row: Sample)
    ensures Names(rows + [row]) == Names(rows) + [row.algorithm]
  {
  }

  /** Appending a row adds its time to its own algorithm's times and to no other. */
  lemma TimesSnoc(rows: seq<Sample>, row: Sample, name: string)
    ensures Times(RowsOf(rows + [row], name)) ==
      Times(RowsOf(rows, name)) + (if row.algorithm == name then [row.time] else [])
  {
    assert (rows + [row])[..|rows|] == rows;
  }

  /** A name no row carries has no rows. */
  lemma UnnamedRows(rows: seq<Sample>, name: string)
    requires name !in Names(rows)
    ensures RowsOf(rows, name) == []
  {
    forall row | row in rows
      ensures !IsOf(name)(row)
    {
      var i :| 0 <= i < |rows| && rows[i] == row;
      assert Names(rows)[i] == row.algorithm;
    }
    FilterNone(rows, IsOf(name));
  }

  /** The `groupedByAlgo` accumulator after the `reduce` has seen `rows`. */
  function GroupedTimes(rows: seq<Sample>): (times: map<string, seq<real>>)
    ensures forall name :: name in times <==> name in Names(rows)
    ensures forall name :: name in times ==> |times[name]| > 0
  {
    if |rows| == 0 then map[]
    else
      var init, row := rows[..|rows| - 1], rows[|rows| - 1];
      var times := GroupedTimes(init);
      NamesSnoc(init, row);
      assert init + [row] == rows;
      times[row.algorithm := (if row.algorithm in times then times[row.algorithm] else []) + [row.time]]
  }

  /** Each algorithm's bucket holds the times of its rows, in order. */
  lemma {:induction false} GroupedTimesAre(rows: seq<Sample>, name: string)
    requires name in Names(rows)
    ensures GroupedTimes(rows)[name] == Times(RowsOf(rows, name))
    decreases |rows|
  {
    var init, row := rows[..|rows| - 1], rows[|rows| - 1];
    assert init + [row] == rows;
    TimesSnoc(init, row, name);
    if name in Names(init) {
      GroupedTimesAre(init, name);
    } else {
      UnnamedRows(init, name);
    }
  }

  /**
   * The `groupedByAlgo` accumulator: the algorithm names in the order the
   * `reduce` first meets them, and for each the times of its rows, in order.
   */
  method GroupTimes(results: seq<Sample>) returns (names: seq<string>, times: map<string, seq<real>>)
    ensures names == Distinct(Names(results))
    ensures times == GroupedTimes(results)
  {
    names := [];
    times := map[];
    for i := 0 to |results|
      invariant names == Distinct(Names(results[..i]))
      invariant times == GroupedTimes(results[..i])
    {
      var row := results[i];
      GroupStep(results, i);
      var bucket := if row.algorithm in times then times[row.algorithm] else [];
      if row.algorithm !in times {
        names := names + [row.algorithm];
      }
      times := times[row.algorithm := bucket + [row.time]];
    }
    assert results[..|results|] == results;
  }

  /** One step of the `reduce`: a new name is listed last and the row's time joins its bucket. */
  lemma GroupStep(results: seq<Sample>, i: nat)
    requires i < |results|
    ensures var row, times := results[i], GroupedTimes(results[..i]);
      && Distinct(Names(results[..i + 1])) ==
           (if row.algorithm in times then Distinct(Names(results[..i])) else Distinct(Names(results[..i])) + [row.algorithm])
      && GroupedTimes(results[..i + 1]) ==
           times[row.algorithm := (if row.algorithm in times then times[row.algorithm] else []) + [row.time]]
  {
    var row := results[i];
    assert results[..i + 1] == results[..i] + [row];
    NamesSnoc(results[..i], row);
    DistinctSnoc(Names(results[..i]), row.algorithm);
  }

  /** A listed name has at least one row. */
  lemma NamedRows(results: seq<Sample>, name: string)
    requires name in Names(results)
    ensures |RowsOf(results, name)| > 0
  {
    var k :| 0 <= k < |results| && Names(results)[k] == name;
    assert results[k] in RowsOf(results, name);
  }

  /**
   * The summary of algorithm `name`: the average, minimum and maximum of its
   * grouped times and their number.
   */
  function SummaryOf(results: seq<Sample>, name: string): (s: Summary)
    requires name in Names(results)
    ensures s.algorithm == name && s.testsRun > 0
    ensures s.min <= s.average <= s.max
  {
    Summarize(name, GroupedTimes(results)[name])
  }

  /** The statistics the summary prints for the times `ts` of algorithm `name`. */
  function Summarize(name: string, ts: seq<real>): (s: Summary)
    requires |ts| > 0
    ensures s.algorithm == name && s.testsRun == |ts|
    ensures s.min <= s.average <= s.max
  {
    MeanBetweenMinAndMax(ts);
    Summary(name, Mean(ts), Min(ts), Max(ts), |ts|)
  }

  /**
   * A summary counts the rows of its algorithm, and its minimum and maximum are
   * times of those rows that bound all of them.
   */
  lemma SummaryOfRows(results: seq<Sample>, name: string)
    requires name in Names(results)
    ensures SummaryOf(results, name).testsRun == |RowsOf(results, name)|
    ensures forall row :: row in results && row.algorithm == name ==>
      SummaryOf(results, name).min <= row.time <= SummaryOf(results, name).max
    ensures exists row :: row in results && row.algorithm == name && row.time == SummaryOf(results, name).min
    ensures exists row :: row in results && row.algorithm == name && row.time == SummaryOf(results, name).max
  {
    GroupedTimesAre(results, name);
    var group := RowsOf(results, name);
    var ts := Times(group);
    forall row | row in group
      ensures Min(ts) <= row.time <= Max(ts)
    {
      var i :| 0 <= i < |group| && group[i] == row;
      assert ts[i] == row.time;
    }
    var iLo :| 0 <= iLo < |ts| && ts[iLo] == Min(ts);
    var iHi :| 0 <= iHi < |ts| && ts[iHi] == Max(ts);
    assert group[iLo] in group && group[iHi] in group;
  }

  /** The summary section: one summary per algorithm, in order of first appearance. */
  method Summaries(results: seq<Sample>) returns (summaries: seq<Summary>)
    ensures |summaries| == |Distinct(Names(results))|
    ensures forall k :: 0 <= k < |summaries| ==> summaries[k] == SummaryOf(results, Distinct(Names(results))[k])
  {
    var names, times := GroupTimes(results);
    summaries := [];
    for k := 0 to |names|
      invariant |summaries| == k
      invariant forall m :: 0 <= m < k ==> summaries[m] == SummaryOf(results, names[m])
    {
      var name := names[k];
      assert name in names;
      ghost var before := summaries;
      summaries := summaries + [Summarize(name, times[name])];
      assert forall m :: 0 <= m < k ==> summaries[m] == before[m];
    }
  }

  // ---------------------------------------------------------------- fastest row

  /**
   * `results.reduce((min, r) => r.time < min.time ? r : min)`: the position of
   * the fastest row; a later row replaces the current one only when strictly
   * faster, so ties go to the earliest.
   */
  method Fastest(results: seq<Sample>) returns (k: nat)
    requires |results| > 0
    ensures k < |results|
    ensures forall j :: 0 <= j < |results| ==> results[k].time <= results[j].time
    ensures forall j :: 0 <= j < k ==> results[k].time < results[j].time
  {
    k := 0;
    for i := 1 to |results|
      invariant k < i
      invariant forall j :: 0 <= j < i ==> results[k].time <= results[j].time
      invariant forall j :: 0 <= j < k ==> results[k].time < results[j].time
    {
      if results[i].time < results[k].time {
        k := i;
      }
    }
  }

  // ---------------------------------------------------------------- the report

  /** What a report generated from `results` holds. */
  ghost predicate IsReportOf(results: seq<Sample>, report: Report) {
    && |report.blocks| == |results|
    && (forall i :: 0 <= i < |results| ==> IsBlockOf(report.blocks[i], i, results[i]))
    && |report.summaries| == |Distinct(Names(results))|
    && (forall k :: 0 <= k < |report.summaries| ==>
          report.summaries[k] == SummaryOf(results, Distinct(Names(results))[k]))
    && (exists k :: 0 <= k < |results| && report.fastest == results[k]
          && (forall j :: 0 <= j < |results| ==> results[k].time <= results[j].time)
          && (forall j :: 0 <= j < k ==> results[k].time < results[j].time))
  }

  /** `generateReport`: throws on no rows, when the fastest-row `reduce` has nothing to start from. */
  method GenerateReport(results: seq<Sample>) returns (r: Result<Report, string>)
    ensures r.Failure? <==> |results| == 0
    ensures r.Failure? ==> r.error == EmptyReduceMessage
    ensures r.Success? ==> IsReportOf(results, r.value)
  {
    var blocks := ResultBlocks(results);
    var summaries := Summaries(results);
    if |results| == 0 {
      return Failure(EmptyReduceMessage);
    }
    var k := Fastest(results);
    r := Success(Report(blocks, summaries, results[k]));
  }

  /** Two rows both first to attain the least time are the same row. */
  lemma FastestIsUnique(results: seq<Sample>, k1: nat, k2: nat)
    requires k1 < |results| && k2 < |results|
    requires forall j :: 0 <= j < |results| ==> results[k1].time <= results[j].time
    requires forall j :: 0 <= j < k1 ==> results[k1].time < results[j].time
    requires forall j :: 0 <= j < |results| ==> results[k2].time <= results[j].time
    requires forall j :: 0 <= j < k2 ==> results[k2].time < results[j].time
    ensures k1 == k2
  {
    assert results[k1].time == results[k2].time;
  }
}
