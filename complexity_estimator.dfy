/**
 * The empirical complexity estimate: for each algorithm, the slope of
 * log(time) against log(size) between the smallest and the largest measured
 * size, classified into one of seven big-O labels.
 *
 * The natural logarithm is a parameter `ln`: the estimate is modelled exactly
 * for whatever values the logarithm returns.
 */
module ComplexityEstimator {
  import opened Wrappers
  import opened Types
  import opened Seqs

  /** `MIN_TIME_MS`: every measured time is raised to at least this. */
  const MinTime: real := 0.01

  const Insufficient: string := "Insufficient data"

  /** The seven classes, from flattest to steepest. */
  const Labels: seq<string> := ["O(1)", "O(log n)", "O(n)", "O(n log n)", "O(n^2)", "O(n^3)", "O(2^n)"]

  /** The inclusive upper slope bound of each class but the last. */
  const Thresholds: seq<real> := [0.15, 0.6, 1.2, 1.5, 2.4, 3.4]

  /** `mapSlopeToComplexity`: the first class whose upper bound is at least the slope. */
  function MapSlopeToComplexity(slope: real): (estimate: string)
    ensures estimate in Labels
  {
    if slope <= 0.15 then "O(1)"
    else if slope <= 0.6 then "O(log n)"
    else if slope <= 1.2 then "O(n)"
    else if slope <= 1.5 then "O(n log n)"
    else if slope <= 2.4 then "O(n^2)"
    else if slope <= 3.4 then "O(n^3)"
    else "O(2^n)"
  }

  /** Position of a label among the seven classes. */
  function Rank(estimate: string): (k: nat)
    requires estimate in Labels
    ensures k < |Labels| && Labels[k] == estimate
  {
    if estimate == "O(1)" then 0
    else if estimate == "O(log n)" then 1
    else if estimate == "O(n)" then 2
    else if estimate == "O(n log n)" then 3
    else if estimate == "O(n^2)" then 4
    else if estimate == "O(n^3)" then 5
    else 6
  }

  /**
   * The classifier as bands: the slope gets class `k` exactly when it lies above
   * the previous threshold and at or below its own.
   */
  lemma SlopeBands(slope: real, k: nat)
    requires k < |Labels|
    ensures MapSlopeToComplexity(slope) == Labels[k] <==>
      (k == 0 || Thresholds[k - 1] < slope) && (k == |Labels| - 1 || slope <= Thresholds[k])
  {
  }

  /** A steeper slope never gets a flatter class. */
  lemma SlopeClassMonotone(s1: real, s2: real)
    requires s1 <= s2
    ensures Rank(MapSlopeToComplexity(s1)) <= Rank(MapSlopeToComplexity(s2))
  {
  }

  /** The thresholds themselves belong to the lower class. */
  lemma ThresholdsAreInclusive()
    ensures MapSlopeToComplexity(0.15) == "O(1)" && MapSlopeToComplexity(0.6) == "O(log n)"
    ensures MapSlopeToComplexity(1.2) == "O(n)" && MapSlopeToComplexity(1.5) == "O(n log n)"
    ensures MapSlopeToComplexity(2.4) == "O(n^2)" && MapSlopeToComplexity(3.4) == "O(n^3)"
  {
  }

  /** `typeof row.inputSize === 'number' && row.inputSize > 0`. */
  predicate HasPositiveSize(row: Sample) {
    row.inputSize.Some? && row.inputSize.value > 0
  }

  /** The rows the estimate uses. */
  function SizedRows(rows: seq<Sample>): (sized: seq<Sample>)
    ensures forall row :: row in sized <==> row in rows && HasPositiveSize(row)
  {
    Filter(rows, HasPositiveSize)
  }

  /** `Math.max(time, MIN_TIME_MS)`. */
  function ClampTime(t: real): (r: real)
    ensures r >= MinTime && r >= t
    ensures r == t || r == MinTime
  {
    if t > MinTime then t else MinTime
  }

  /** The sizes of the rows, in row order. */
  function SizeList(rows: seq<Sample>): (sizes: seq<int>)
    ensures |sizes| == |rows|
  {
    seq(|rows|, i requires 0 <= i < |rows| => rows[i].inputSize.GetOr(0))
  }

  /** The clamped times of the rows of size `n`, in row order: the `bySize[n]` bucket. */
  function TimesAt(rows: seq<Sample>, n: int): (ts: seq<real>)
    ensures forall i :: 0 <= i < |ts| ==> ts[i] >= MinTime
  {
    if |rows| == 0 then []
    else
      var last := rows[|rows| - 1];
      TimesAt(rows[..|rows| - 1], n) + (if last.inputSize == Some(n) then [ClampTime(last.time)] else [])
  }

  lemma {:induction false} TimesAtNonEmpty(rows: seq<Sample>, n: int)
    requires forall row :: row in rows ==> row.inputSize.Some?
    requires n in SizeList(rows)
    ensures |TimesAt(rows, n)| > 0
    decreases |rows|
  {
    var init, last := rows[..|rows| - 1], rows[|rows| - 1];
    if last.inputSize != Some(n) {
      var i :| 0 <= i < |rows| && SizeList(rows)[i] == n;
      assert i < |rows| - 1 && SizeList(init)[i] == n;
      TimesAtNonEmpty(init, n);
    }
  }

  lemma {:induction false} TimesAtAppend(rows: seq<Sample>, row: Sample, n: int)
    ensures TimesAt(rows + [row], n) == TimesAt(rows, n) + (if row.inputSize == Some(n) then [ClampTime(row.time)] else [])
  {
    assert (rows + [row])[..|rows|] == rows;
  }

  /** A measured point: a size and the average clamped time at that size. */
  datatype Point = Point(n: int, t: real)

  /** The average clamped time at size `n`, which some row has. */
  function AverageAt(sized: seq<Sample>, n: int): (t: real)
    requires forall row :: row in sized ==> row.inputSize.Some?
    requires n in SizeList(sized)
    ensures t >= MinTime
  {
    TimesAtNonEmpty(sized, n);
    var ts := TimesAt(sized, n);
    MeanAtLeast(ts, MinTime);
    Mean(ts)
  }

  /** One point per distinct size, as `Object.entries(bySize).map(...)` builds them. */
  function Points(sized: seq<Sample>): (points: seq<Point>)
    requires forall row :: row in sized ==> row.inputSize.Some?
    ensures |points| == |Distinct(SizeList(sized))|
    ensures forall i :: 0 <= i < |points| ==>
      points[i].n in SizeList(sized) && points[i].t == AverageAt(sized, points[i].n)
    ensures forall n :: n in SizeList(sized) ==> exists i :: 0 <= i < |points| && points[i].n == n
  {
    var sizes := Distinct(SizeList(sized));
    var points := seq(|sizes|, i requires 0 <= i < |sizes| => Point(sizes[i], AverageAt(sized, sizes[i])));
    assert forall n :: n in SizeList(sized) ==> exists i :: 0 <= i < |points| && points[i].n == n by {
      forall n | n in SizeList(sized)
        ensures exists i :: 0 <= i < |points| && points[i].n == n
      {
        assert n in sizes;
        var i :| 0 <= i < |sizes| && sizes[i] == n;
        assert points[i].n == n;
      }
    }
    points
  }

  /** `point.n > 0 && point.t > 0`. */
  predicate IsPositivePoint(p: Point) {
    p.n > 0 && p.t > 0.0
  }

  /** The point of least size (the head of the points sorted by size). */
  function FirstBySize(points: seq<Point>): (p: Point)
    requires |points| > 0
    ensures p in points
    ensures forall i :: 0 <= i < |points| ==> p.n <= points[i].n
  {
    if |points| == 1 then points[0]
    else
      var init := points[..|points| - 1];
      var p := FirstBySize(init);
      assert forall i :: 0 <= i < |points| - 1 ==> points[i] == init[i];
      if points[|points| - 1].n < p.n then points[|points| - 1] else p
  }

  /** The point of greatest size (the last of the points sorted by size). */
  function LastBySize(points: seq<Point>): (p: Point)
    requires |points| > 0
    ensures p in points
    ensures forall i :: 0 <= i < |points| ==> points[i].n <= p.n
  {
    if |points| == 1 then points[0]
    else
      var init := points[..|points| - 1];
      var p := LastBySize(init);
      assert forall i :: 0 <= i < |points| - 1 ==> points[i] == init[i];
      if points[|points| - 1].n > p.n then points[|points| - 1] else p
  }

  /**
   * The last step of the estimate: the log-log slope between two points, or
   * `'Insufficient data'` when the logarithms of their sizes coincide.
   */
  function Classify(ln: real -> real, first: Point, last: Point): (estimate: string)
    ensures estimate == Insufficient || estimate in Labels
  {
    var denominator := ln(last.n as real) - ln(first.n as real);
    if denominator == 0.0 then Insufficient
    else MapSlopeToComplexity((ln(last.t) - ln(first.t)) / denominator)
  }

  /** `estimateForAlgorithm`: an estimate for one algorithm's rows. It never fails. */
  function EstimateForAlgorithm(rows: seq<Sample>, ln: real -> real): (estimate: string)
    ensures estimate == Insufficient || estimate in Labels
    ensures |SizedRows(rows)| < 2 ==> estimate == Insufficient
    ensures |Distinct(SizeList(SizedRows(rows)))| < 2 ==> estimate == Insufficient
  {
    var sized := SizedRows(rows);
    if |sized| < 2 then Insufficient
    else
      var points := Filter(Points(sized), IsPositivePoint);
      if |points| < 2 then Insufficient
      else Classify(ln, FirstBySize(points), LastBySize(points))
  }

  /**
   * Every per-size average is at least `MIN_TIME_MS`, so the filter on positive
   * points never removes one.
   */
  lemma PositiveFilterKeepsAll(rows: seq<Sample>)
    ensures forall i :: 0 <= i < |Points(SizedRows(rows))| ==> Points(SizedRows(rows))[i].t >= MinTime
    ensures Filter(Points(SizedRows(rows)), IsPositivePoint) == Points(SizedRows(rows))
  {
    var sized := SizedRows(rows);
    var points := Points(sized);
    forall p | p in points
      ensures IsPositivePoint(p)
    {
      var i :| 0 <= i < |points| && points[i] == p;
      var k :| 0 <= k < |sized| && SizeList(sized)[k] == p.n;
      assert HasPositiveSize(sized[k]);
    }
    FilterAll(points, IsPositivePoint);
  }

  /**
   * Only the extreme sizes matter: with at least two distinct sizes, the estimate is
   * the classification of the averaged points at the smallest size `lo` and the
   * largest size `hi`, whatever is measured in between.
   */
  lemma EstimateFromExtremes(rows: seq<Sample>, ln: real -> real, lo: int, hi: int)
    requires lo in SizeList(SizedRows(rows)) && hi in SizeList(SizedRows(rows)) && lo < hi
    requires forall s :: s in SizeList(SizedRows(rows)) ==> lo <= s <= hi
    ensures EstimateForAlgorithm(rows, ln) ==
      Classify(ln, Point(lo, AverageAt(SizedRows(rows), lo)), Point(hi, AverageAt(SizedRows(rows), hi)))
  {
    var sized := SizedRows(rows);
    var points := Points(sized);
    var i :| 0 <= i < |points| && points[i].n == lo;
    var j :| 0 <= j < |points| && points[j].n == hi;
    assert i != j;
    EstimateOfPoints(rows, ln);
    LeastPoint(sized, lo);
    GreatestPoint(sized, hi);
  }

  /** The first point by size is the point of the least size. */
  lemma LeastPoint(sized: seq<Sample>, lo: int)
    requires forall row :: row in sized ==> row.inputSize.Some?
    requires lo in SizeList(sized)
    requires forall s :: s in SizeList(sized) ==> lo <= s
    ensures |Points(sized)| > 0
    ensures FirstBySize(Points(sized)) == Point(lo, AverageAt(sized, lo))
  {
    var points := Points(sized);
    var first := FirstBySize(points);
    var m :| 0 <= m < |points| && points[m] == first;
    assert first.n == lo by {
      var i :| 0 <= i < |points| && points[i].n == lo;
      assert first.n <= points[i].n;
      assert points[m].n in SizeList(sized);
    }
    assert first.t == AverageAt(sized, lo);
  }

  /** The last point by size is the point of the greatest size. */
  lemma GreatestPoint(sized: seq<Sample>, hi: int)
    requires forall row :: row in sized ==> row.inputSize.Some?
    requires hi in SizeList(sized)
    requires forall s :: s in SizeList(sized) ==> s <= hi
    ensures |Points(sized)| > 0
    ensures LastBySize(Points(sized)) == Point(hi, AverageAt(sized, hi))
  {
    var points := Points(sized);
    var last := LastBySize(points);
    var m :| 0 <= m < |points| && points[m] == last;
    assert last.n == hi by {
      var j :| 0 <= j < |points| && points[j].n == hi;
      assert points[j].n <= last.n;
      assert points[m].n in SizeList(sized);
    }
    assert last.t == AverageAt(sized, hi);
  }

  /** With two or more points, the estimate classifies the first and the last point by size. */
  lemma EstimateOfPoints(rows: seq<Sample>, ln: real -> real)
    requires |Points(SizedRows(rows))| >= 2
    ensures EstimateForAlgorithm(rows, ln) ==
      Classify(ln, FirstBySize(Points(SizedRows(rows))), LastBySize(Points(SizedRows(rows))))
  {
    var sized := SizedRows(rows);
    PositiveFilterKeepsAll(rows);
    assert |sized| >= 2 by {
      assert |Distinct(SizeList(sized))| <= |SizeList(sized)|;
    }
  }

  lemma SizedRowsAppend(rows: seq<Sample>, row: Sample)
    requires HasPositiveSize(row)
    ensures SizedRows(rows + [row]) == SizedRows(rows) + [row]
    ensures SizeList(SizedRows(rows + [row])) == SizeList(SizedRows(rows)) + [row.inputSize.value]
  {
    FilterAppend(rows, [row], HasPositiveSize);
    assert [row][..0] == [];
  }

  /** A row of another size does not change the average at size `n`. */
  lemma AverageAtAppendOther(sized: seq<Sample>, row: Sample, n: int)
    requires forall r :: r in sized ==> r.inputSize.Some?
    requires row.inputSize.Some? && row.inputSize.value != n
    requires n in SizeList(sized)
    ensures n in SizeList(sized + [row])
    ensures AverageAt(sized + [row], n) == AverageAt(sized, n)
  {
    var i :| 0 <= i < |sized| && SizeList(sized)[i] == n;
    assert SizeList(sized + [row])[i] == n;
    TimesAtAppend(sized, row, n);
    assert TimesAt(sized + [row], n) == TimesAt(sized, n);
  }

  /**
   * Adding a row whose size lies strictly between the smallest and the largest
   * measured sizes leaves the estimate unchanged.
   */
  lemma IntermediateRowIgnored(rows: seq<Sample>, row: Sample, ln: real -> real, lo: int, hi: int)
    requires lo in SizeList(SizedRows(rows)) && hi in SizeList(SizedRows(rows))
    requires forall s :: s in SizeList(SizedRows(rows)) ==> lo <= s <= hi
    requires row.inputSize.Some? && lo < row.inputSize.value < hi
    ensures EstimateForAlgorithm(rows + [row], ln) == EstimateForAlgorithm(rows, ln)
  {
    var sized := SizedRows(rows);
    assert HasPositiveSize(row) by {
      var k :| 0 <= k < |sized| && SizeList(sized)[k] == lo;
      assert sized[k] in sized;
    }
    SizedRowsAppend(rows, row);
    AverageAtAppendOther(sized, row, lo);
    AverageAtAppendOther(sized, row, hi);
    assert forall s :: s in SizeList(SizedRows(rows + [row])) ==> lo <= s <= hi by {
      forall s | s in SizeList(SizedRows(rows + [row]))
        ensures lo <= s <= hi
      {
        if s != row.inputSize.value {
          assert s in SizeList(sized);
        }
      }
    }
    EstimateFromExtremes(rows, ln, lo, hi);
    EstimateFromExtremes(rows + [row], ln, lo, hi);
  }

  /** The test `row.algorithm === algorithm`. */
  function IsOf(algorithm: string): Sample -> bool {
    (row: Sample) => row.algorithm == algorithm
  }

  /** The rows of one algorithm, in order. */
  function RowsOf(rows: seq<Sample>, algorithm: string): (r: seq<Sample>)
    ensures forall row :: row in r <==> row in rows && row.algorithm == algorithm
  {
    Filter(rows, IsOf(algorithm))
  }

  /** The algorithm names of the rows, in order. */
  function Names(rows: seq<Sample>): (names: seq<string>)
    ensures |names| == |rows|
  {
    seq(|rows|, i requires 0 <= i < |rows| => rows[i].algorithm)
  }

  /** The `byAlgorithm` accumulator: the rows grouped under their algorithm name. */
  function GroupByAlgorithm(rows: seq<Sample>): (groups: map<string, seq<Sample>>)
    ensures forall name :: name in groups <==> name in Names(rows)
  {
    if |rows| == 0 then map[]
    else
      var init, last := rows[..|rows| - 1], rows[|rows| - 1];
      var groups := GroupByAlgorithm(init);
      assert Names(rows) == Names(init) + [last.algorithm];
      groups[last.algorithm := (if last.algorithm in groups then groups[last.algorithm] else []) + [last]]
  }

  /** Each group holds exactly the rows of its algorithm, in their original order. */
  lemma {:induction false} GroupIsRowsOf(rows: seq<Sample>, name: string)
    requires name in GroupByAlgorithm(rows)
    ensures GroupByAlgorithm(rows)[name] == RowsOf(rows, name)
    decreases |rows|
  {
    var init, last := rows[..|rows| - 1], rows[|rows| - 1];
    assert Names(rows) == Names(init) + [last.algorithm];
    if name in GroupByAlgorithm(init) {
      GroupIsRowsOf(init, name);
    } else {
      assert name == last.algorithm;
      assert forall row :: row in init ==> row.algorithm != name by {
        forall row | row in init
          ensures row.algorithm != name
        {
          var i :| 0 <= i < |init| && init[i] == row;
          assert Names(init)[i] == row.algorithm;
        }
      }
      FilterNone(init, IsOf(name));
    }
  }

  /**
   * The same grouping as `byAlgorithm` builds it on a plain object literal: a
   * name that `{}` inherits from `Object.prototype` reads as a present (truthy)
   * bucket, and the `push` on it fails.
   */
  function GroupByAlgorithmAsWritten(rows: seq<Sample>): (r: Result<map<string, seq<Sample>>, string>)
  {
    if |rows| == 0 then Success(map[])
    else
      var init, last := rows[..|rows| - 1], rows[|rows| - 1];
      match GroupByAlgorithmAsWritten(init)
      case Failure(e) => Failure(e)
      case Success(groups) =>
        if last.algorithm in groups then Success(groups[last.algorithm := groups[last.algorithm] + [last]])
        else if last.algorithm in ObjectPrototypeKeys then Failure("acc[row.algorithm].push is not a function")
        else Success(groups[last.algorithm := [last]])
  }

  /**
   * The grouping as written fails exactly when some algorithm is named after an
   * inherited member, and otherwise agrees with `GroupByAlgorithm`.
   */
  lemma {:induction false} GroupByAlgorithmAsWrittenFails(rows: seq<Sample>)
    ensures GroupByAlgorithmAsWritten(rows).Failure? <==>
      exists i :: 0 <= i < |rows| && rows[i].algorithm in ObjectPrototypeKeys
    ensures GroupByAlgorithmAsWritten(rows).Success? ==>
      GroupByAlgorithmAsWritten(rows).value == GroupByAlgorithm(rows)
    decreases |rows|
  {
    if |rows| > 0 {
      var init, last := rows[..|rows| - 1], rows[|rows| - 1];
      GroupByAlgorithmAsWrittenFails(init);
      assert Names(rows) == Names(init) + [last.algorithm];
      if GroupByAlgorithmAsWritten(init).Success? && last.algorithm in GroupByAlgorithm(init) {
        var k :| 0 <= k < |init| && Names(init)[k] == last.algorithm;
        assert init[k].algorithm == last.algorithm;
        assert !(last.algorithm in ObjectPrototypeKeys);
      }
      assert [] + [last] == [last];
      forall i | 0 <= i < |rows| - 1
        ensures rows[i] == init[i]
      {
      }
    }
  }

  /** A single benchmark row for an algorithm called "constructor" makes the estimator throw. */
  lemma InheritedNameThrows(row: Sample)
    requires row.algorithm == "constructor"
    ensures GroupByAlgorithmAsWritten([row]).Failure?
  {
    assert [row][..0] == [];
  }

  /** `estimatedByAlgorithm`: one estimate per algorithm name. */
  function EstimatesByAlgorithm(groups: map<string, seq<Sample>>, ln: real -> real): (estimates: map<string, string>)
    ensures estimates.Keys == groups.Keys
    ensures forall name :: name in estimates ==> estimates[name] == EstimateForAlgorithm(groups[name], ln)
  {
    map name | name in groups :: EstimateForAlgorithm(groups[name], ln)
  }

  /** `estimatedByAlgorithm[name] || 'Insufficient data'`. */
  function LabelFor(estimates: map<string, string>, name: string): string {
    if name in estimates && estimates[name] != "" then estimates[name] else Insufficient
  }

  /**
   * `withEstimatedComplexity`: the same rows in the same order, each with its
   * `timeComplexity` replaced by the estimate for its algorithm.
   */
  function WithEstimatedComplexity(rows: seq<Sample>, ln: real -> real): (r: seq<Sample>)
    ensures |r| == |rows|
    ensures forall i :: 0 <= i < |rows| ==> r[i] == rows[i].(timeComplexity := r[i].timeComplexity)
  {
    var estimates := EstimatesByAlgorithm(GroupByAlgorithm(rows), ln);
    seq(|rows|, i requires 0 <= i < |rows| => rows[i].(timeComplexity := LabelFor(estimates, rows[i].algorithm)))
  }

  /**
   * Each row's estimate is the estimate computed from the rows of its own
   * algorithm and nothing else; the `|| 'Insufficient data'` fallback never applies.
   */
  lemma LabelOfRow(rows: seq<Sample>, ln: real -> real, i: int)
    requires 0 <= i < |rows|
    ensures WithEstimatedComplexity(rows, ln)[i].timeComplexity == EstimateForAlgorithm(RowsOf(rows, rows[i].algorithm), ln)
  {
    var name := rows[i].algorithm;
    var groups := GroupByAlgorithm(rows);
    assert Names(rows)[i] == name;
    GroupIsRowsOf(rows, name);
    EstimateNotEmpty(groups[name], ln);
  }

  lemma EstimateNotEmpty(rows: seq<Sample>, ln: real -> real)
    ensures EstimateForAlgorithm(rows, ln) != ""
  {
    var estimate := EstimateForAlgorithm(rows, ln);
    assert estimate == Insufficient || estimate in Labels;
    assert "" !in Labels by {
      assert forall k :: 0 <= k < |Labels| ==> |Labels[k]| > 0;
    }
  }

  /** Rows of the same algorithm get the same estimate. */
  lemma SameAlgorithmSameLabel(rows: seq<Sample>, ln: real -> real, i: int, j: int)
    requires 0 <= i < |rows| && 0 <= j < |rows| && rows[i].algorithm == rows[j].algorithm
    ensures WithEstimatedComplexity(rows, ln)[i].timeComplexity == WithEstimatedComplexity(rows, ln)[j].timeComplexity
  {
    LabelOfRow(rows, ln, i);
    LabelOfRow(rows, ln, j);
  }

  lemma RowsOfAppendOthers(rows: seq<Sample>, others: seq<Sample>, name: string)
    requires forall row :: row in others ==> row.algorithm != name
    ensures RowsOf(rows + others, name) == RowsOf(rows, name)
  {
    FilterAppend(rows, others, IsOf(name));
    FilterNone(others, IsOf(name));
    assert RowsOf(rows, name) + [] == RowsOf(rows, name);
  }

  /** Rows of other algorithms added after the rows do not change an algorithm's label. */
  lemma OtherRowsDoNotMatter(rows: seq<Sample>, others: seq<Sample>, ln: real -> real, name: string)
    requires forall row :: row in others ==> row.algorithm != name
    ensures EstimateForAlgorithm(RowsOf(rows + others, name), ln) == EstimateForAlgorithm(RowsOf(rows, name), ln)
  {
    RowsOfAppendOthers(rows, others, name);
  }
}
