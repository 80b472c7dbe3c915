/**
 * The built-in catalogue of five sorting routines. Each `code` body copies the
 * caller's array, sorts the copy, counts its own kind of operation and reports
 * the elapsed time, which is passed in here because the clock is outside the
 * model. None of the methods below has a `modifies` clause: the caller's array
 * is left as it was.
 */
module Algorithms {
  import opened Wrappers
  import opened Types
  import opened Seqs
  import opened SortFacts

  /** Exchanges the adjacent out-of-order pair at `j`, `j + 1`, removing one inversion. */
  method SwapOutOfOrderPair(a: array<int>, j: int)
    requires 0 <= j < a.Length - 1 && a[j] > a[j + 1]
    modifies a
    ensures a[j] == old(a[j + 1]) && a[j + 1] == old(a[j])
    ensures forall k :: 0 <= k < a.Length && k != j && k != j + 1 ==> a[k] == old(a[k])
    ensures multiset(a[..]) == multiset(old(a[..]))
    ensures Inversions(a[..]) + 1 == Inversions(old(a[..]))
  {
    ghost var before := a[..];
    a[j], a[j + 1] := a[j + 1], a[j];
    assert a[..] == before[j := before[j + 1]][j + 1 := before[j]];
    SwapOutOfOrderPairInSeq(before, j);
  }

  /** `a[b..]` is in ascending order. */
  ghost predicate SortedFrom(a: seq<int>, b: int) {
    forall k, l :: 0 <= k && b <= k < l < |a| ==> a[k] <= a[l]
  }

  /** No element before position `b` exceeds an element at or after it. */
  ghost predicate SplitAt(a: seq<int>, b: int) {
    forall k, l :: 0 <= k < b <= l < |a| ==> a[k] <= a[l]
  }

  /**
   * The body of bubble sort's inner loop at `j`: swaps `a[j]` and `a[j + 1]` when
   * they are out of order and reports how many swaps it made (0 or 1).
   */
  method CompareAndSwap(a: array<int>, m: int, j: int) returns (swapped: nat)
    requires 0 <= j < m < a.Length
    requires SortedFrom(a[..], m + 1) && SplitAt(a[..], m + 1)
    requires forall k :: 0 <= k <= j ==> a[k] <= a[j]
    modifies a
    ensures multiset(a[..]) == multiset(old(a[..]))
    ensures swapped + Inversions(a[..]) == Inversions(old(a[..]))
    ensures SortedFrom(a[..], m + 1) && SplitAt(a[..], m + 1)
    ensures forall k :: 0 <= k <= j + 1 ==> a[k] <= a[j + 1]
  {
    swapped := 0;
    if a[j] > a[j + 1] {
      SwapOutOfOrderPair(a, j);
      swapped := 1;
    }
  }

  /**
   * One pass of bubble sort's inner loop over `a[..m + 1]`: carries the largest
   * element of that prefix to position `m`, so the sorted suffix grows by one,
   * and counts the swaps it makes.
   */
  method BubblePass(a: array<int>, m: int) returns (swaps: nat)
    requires 0 <= m < a.Length
    requires SortedFrom(a[..], m + 1) && SplitAt(a[..], m + 1)
    modifies a
    ensures multiset(a[..]) == multiset(old(a[..]))
    ensures swaps + Inversions(a[..]) == Inversions(old(a[..]))
    ensures SortedFrom(a[..], m) && SplitAt(a[..], m)
  {
    swaps := 0;
    for j := 0 to m
      invariant multiset(a[..]) == multiset(old(a[..]))
      invariant swaps + Inversions(a[..]) == Inversions(old(a[..]))
      invariant SortedFrom(a[..], m + 1) && SplitAt(a[..], m + 1)
      invariant forall k :: 0 <= k <= j ==> a[k] <= a[j]
    {
      var swapped := CompareAndSwap(a, m, j);
      swaps := swaps + swapped;
    }
  }

  /** `bubbleSort.code`: counts swaps, which is the number of inversions of the input. */
  method BubbleSort(arr: array<int>, elapsed: real) returns (r: ExecutionResult)
    ensures r.time == elapsed
    ensures Sorted(r.result) && multiset(r.result) == multiset(arr[..])
    ensures r.operations == Inversions(arr[..])
  {
    var copy := new int[arr.Length](k requires 0 <= k < arr.Length reads arr => arr[k]);
    assert copy[..] == arr[..];
    var n := copy.Length;
    var swaps := 0;
    for i := 0 to n
      invariant multiset(copy[..]) == multiset(arr[..])
      invariant swaps + Inversions(copy[..]) == Inversions(arr[..])
      invariant SortedFrom(copy[..], n - i) && SplitAt(copy[..], n - i)
    {
      var passSwaps := BubblePass(copy, n - i - 1);
      swaps := swaps + passSwaps;
    }
    SortedHasNoInversions(copy[..]);
    r := ExecutionResult(elapsed, copy[..], swaps);
  }

  /**
   * Moves `a[j]` one place right into the gap at `j + 1`, where the held-aside
   * `key` belongs; the gap moves to `j`, and one inversion disappears.
   */
  method ShiftIntoGap(a: array<int>, i: int, j: int, key: int)
    requires 0 <= j < i < a.Length && a[j] > key
    requires forall k, l :: 0 <= k < l <= i && k != j + 1 && l != j + 1 ==> a[k] <= a[l]
    requires forall l :: j + 1 < l <= i ==> key < a[l]
    modifies a
    ensures forall k :: 0 <= k < a.Length && k != j + 1 ==> a[k] == old(a[k])
    ensures forall k, l :: 0 <= k < l <= i && k != j && l != j ==> a[k] <= a[l]
    ensures forall l :: j < l <= i ==> key < a[l]
    ensures multiset(a[..][j := key]) == multiset(old(a[..])[j + 1 := key])
    ensures Inversions(a[..][j := key]) + 1 == Inversions(old(a[..])[j + 1 := key])
  {
    ghost var s := a[..];
    ShiftOverGap(s, j, key);
    a[j + 1] := a[j];
    assert a[..] == s[j + 1 := s[j]];
  }

  /** Writes the held-aside `key` into the gap at `j + 1` once it has found its place. */
  method FillGap(a: array<int>, i: int, j: int, key: int)
    requires -1 <= j < i < a.Length
    requires j >= 0 ==> a[j] <= key
    requires forall k, l :: 0 <= k < l <= i && k != j + 1 && l != j + 1 ==> a[k] <= a[l]
    requires forall l :: j + 1 < l <= i ==> key < a[l]
    modifies a
    ensures a[..] == old(a[..])[j + 1 := key]
    ensures forall k, l :: 0 <= k < l <= i ==> a[k] <= a[l]
  {
    a[j + 1] := key;
  }

  /**
   * One iteration of insertion sort's outer loop: inserts `a[i]` into the sorted
   * prefix `a[..i]`, counting one operation per element shifted right.
   */
  method InsertKey(a: array<int>, i: int) returns (shifts: nat)
    requires 1 <= i < a.Length
    requires forall k, l :: 0 <= k < l < i ==> a[k] <= a[l]
    modifies a
    ensures multiset(a[..]) == multiset(old(a[..]))
    ensures shifts + Inversions(a[..]) == Inversions(old(a[..]))
    ensures forall k, l :: 0 <= k < l <= i ==> a[k] <= a[l]
    ensures forall k :: i < k < a.Length ==> a[k] == old(a[k])
  {
    var key := a[i];
    var j := i - 1;
    shifts := 0;
    assert a[..][j + 1 := key] == a[..];
    while j >= 0 && a[j] > key
      invariant 0 <= j + 1 <= i
      invariant forall k :: i < k < a.Length ==> a[k] == old(a[k])
      invariant multiset(a[..][j + 1 := key]) == multiset(old(a[..]))
      invariant shifts + Inversions(a[..][j + 1 := key]) == Inversions(old(a[..]))
      invariant forall k, l :: 0 <= k < l <= i && k != j + 1 && l != j + 1 ==> a[k] <= a[l]
      invariant forall l :: j + 1 < l <= i ==> key < a[l]
      decreases j
    {
      ShiftIntoGap(a, i, j, key);
      j := j - 1;
      shifts := shifts + 1;
    }
    FillGap(a, i, j, key);
  }

  /** `insertionSort.code`: counts shifts, which is the number of inversions of the input. */
  method InsertionSort(arr: array<int>, elapsed: real) returns (r: ExecutionResult)
    ensures r.time == elapsed
    ensures Sorted(r.result) && multiset(r.result) == multiset(arr[..])
    ensures r.operations == Inversions(arr[..])
  {
    var copy := new int[arr.Length](k requires 0 <= k < arr.Length reads arr => arr[k]);
    assert copy[..] == arr[..];
    var n := copy.Length;
    var operations := 0;
    var i := 1;
    while i < n
      invariant 1 <= i <= n + 1
      invariant multiset(copy[..]) == multiset(arr[..])
      invariant operations + Inversions(copy[..]) == Inversions(arr[..])
      invariant forall k, l :: 0 <= k < l < i && l < n ==> copy[k] <= copy[l]
    {
      var shifts := InsertKey(copy, i);
      operations := operations + shifts;
      i := i + 1;
    }
    SortedHasNoInversions(copy[..]);
    r := ExecutionResult(elapsed, copy[..], operations);
  }

  /**
   * Selection sort's inner loop: the index of the first least element of
   * `a[i..]`, and one comparison per element after `i`.
   */
  method FindMinFrom(a: array<int>, i: int) returns (minIdx: int, comparisons: nat)
    requires 0 <= i < a.Length
    ensures i <= minIdx < a.Length
    ensures forall k :: i <= k < a.Length ==> a[minIdx] <= a[k]
    ensures comparisons == a.Length - i - 1
  {
    minIdx := i;
    comparisons := 0;
    for j := i + 1 to a.Length
      invariant i <= minIdx < j
      invariant forall k :: i <= k < j ==> a[minIdx] <= a[k]
      invariant comparisons == j - i - 1
    {
      comparisons := comparisons + 1;
      if a[j] < a[minIdx] {
        minIdx := j;
      }
    }
  }

  /** Comparisons selection sort has made on an array of length `n` after `i` outer iterations. */
  ghost function ComparisonsBefore(n: int, i: nat): int {
    if i == 0 then 0 else ComparisonsBefore(n, i - 1) + (n - i)
  }

  /** The closed form of the count: (n-1) + (n-2) + ... + (n-i) = i(2n-i-1)/2. */
  lemma {:induction false} ComparisonsBeforeClosedForm(n: int, i: nat)
    ensures 2 * ComparisonsBefore(n, i) == i * (2 * n - i - 1)
  {
    if i > 0 {
      ComparisonsBeforeClosedForm(n, i - 1);
    }
  }

  /** Over all `n - 1` outer iterations selection sort makes n(n-1)/2 comparisons. */
  lemma AllComparisons(n: nat)
    ensures ComparisonsBefore(n, if n == 0 then 0 else n - 1) == n * (n - 1) / 2
  {
    if n > 0 {
      ComparisonsBeforeClosedForm(n, n - 1);
    }
  }

  /** Every element of `a[..i]` is in final position: no later element is smaller. */
  ghost predicate PrefixPlaced(a: seq<int>, i: int) {
    forall k, l :: 0 <= k < l < |a| && k < i ==> a[k] <= a[l]
  }

  /** Exchanges `a[i]` with the least element of `a[i..]`, at `m`, extending the sorted prefix. */
  method PlaceMin(a: array<int>, i: int, m: int)
    requires 0 <= i <= m < a.Length
    requires forall k :: i <= k < a.Length ==> a[m] <= a[k]
    requires PrefixPlaced(a[..], i)
    modifies a
    ensures multiset(a[..]) == multiset(old(a[..]))
    ensures PrefixPlaced(a[..], i + 1)
  {
    if m != i {
      a[i], a[m] := a[m], a[i];
    }
  }

  /** `selectionSort.code`: counts comparisons, exactly n(n-1)/2 for any input of length n. */
  method SelectionSort(arr: array<int>, elapsed: real) returns (r: ExecutionResult)
    ensures r.time == elapsed
    ensures Sorted(r.result) && multiset(r.result) == multiset(arr[..])
    ensures r.operations == arr.Length * (arr.Length - 1) / 2
  {
    var copy := new int[arr.Length](k requires 0 <= k < arr.Length reads arr => arr[k]);
    assert copy[..] == arr[..];
    var n := copy.Length;
    var operations := 0;
    var i := 0;
    while i < n - 1
      invariant 0 <= i <= if n == 0 then 0 else n - 1
      invariant operations == ComparisonsBefore(n, i)
      invariant multiset(copy[..]) == multiset(arr[..])
      invariant PrefixPlaced(copy[..], i)
    {
      var minIdx, comparisons := FindMinFrom(copy, i);
      operations := operations + comparisons;
      PlaceMin(copy, i, minIdx);
      i := i + 1;
    }
    AllComparisons(n);
    r := ExecutionResult(elapsed, copy[..], operations);
  }

  /** `array.filter(x => x < pivot)`. */
  function Below(s: seq<int>, pivot: int): seq<int> {
    Filter(s, x => x < pivot)
  }

  /** `array.filter(x => x === pivot)`. */
  function Same(s: seq<int>, pivot: int): seq<int> {
    Filter(s, x => x == pivot)
  }

  /** `array.filter(x => x > pivot)`. */
  function Above(s: seq<int>, pivot: int): seq<int> {
    Filter(s, x => x > pivot)
  }

  /**
   * The three filters of quick sort split `s` exactly: every element lands in
   * one of them, below, equal to or above the pivot.
   */
  lemma {:induction false} ThreeWayPartition(s: seq<int>, pivot: int)
    ensures IsThreeWayPartition(s, pivot)
    decreases |s|
  {
    if |s| > 0 {
      var init, last := s[..|s| - 1], s[|s| - 1];
      ThreeWayPartition(init, pivot);
      if last < pivot {
        PartitionSnocBelow(s, pivot);
      } else if last == pivot {
        PartitionSnocSame(s, pivot);
      } else {
        PartitionSnocAbove(s, pivot);
      }
    }
  }

  /** The three parts of `s` are a partition of it. */
  ghost predicate IsThreeWayPartition(s: seq<int>, pivot: int) {
    multiset(Below(s, pivot)) + multiset(Same(s, pivot)) + multiset(Above(s, pivot)) == multiset(s)
  }

  lemma PartitionSnocBelow(s: seq<int>, pivot: int)
    requires |s| > 0 && IsThreeWayPartition(s[..|s| - 1], pivot) && s[|s| - 1] < pivot
    ensures IsThreeWayPartition(s, pivot)
  {
    var init, last := s[..|s| - 1], s[|s| - 1];
    assert s == init + [last];
    assert Below(s, pivot) == Below(init, pivot) + [last];
    assert Same(s, pivot) == Same(init, pivot) && Above(s, pivot) == Above(init, pivot);
  }

  lemma PartitionSnocSame(s: seq<int>, pivot: int)
    requires |s| > 0 && IsThreeWayPartition(s[..|s| - 1], pivot) && s[|s| - 1] == pivot
    ensures IsThreeWayPartition(s, pivot)
  {
    var init, last := s[..|s| - 1], s[|s| - 1];
    assert s == init + [last];
    assert Same(s, pivot) == Same(init, pivot) + [last];
    assert Below(s, pivot) == Below(init, pivot) && Above(s, pivot) == Above(init, pivot);
  }

  lemma PartitionSnocAbove(s: seq<int>, pivot: int)
    requires |s| > 0 && IsThreeWayPartition(s[..|s| - 1], pivot) && s[|s| - 1] > pivot
    ensures IsThreeWayPartition(s, pivot)
  {
    var init, last := s[..|s| - 1], s[|s| - 1];
    assert s == init + [last];
    assert Above(s, pivot) == Above(init, pivot) + [last];
    assert Below(s, pivot) == Below(init, pivot) && Same(s, pivot) == Same(init, pivot);
  }

  lemma MembersOfPermutation(a: seq<int>, b: seq<int>)
    requires multiset(a) == multiset(b)
    ensures forall x :: x in a <==> x in b
  {
    forall x
      ensures x in a <==> x in b
    {
      assert x in a <==> x in multiset(a);
      assert x in b <==> x in multiset(b);
    }
  }

  /**
   * Quick sort's result is sorted: sorted blocks below the pivot, equal to it and
   * above it, joined in that order.
   */
  lemma JoinAroundPivot(l: seq<int>, m: seq<int>, r: seq<int>, pivot: int)
    requires Sorted(l) && Sorted(r)
    requires forall x :: x in l ==> x < pivot
    requires forall x :: x in m ==> x == pivot
    requires forall x :: x in r ==> x > pivot
    ensures Sorted(l + m + r)
  {
    assert Sorted(m) by {
      forall i, j | 0 <= i < j < |m|
        ensures m[i] <= m[j]
      {
        assert m[i] in m && m[j] in m;
      }
    }
    assert forall i, j :: 0 <= i < |l| && 0 <= j < |m| ==> l[i] <= m[j] by {
      forall i, j | 0 <= i < |l| && 0 <= j < |m|
        ensures l[i] <= m[j]
      {
        assert l[i] in l && m[j] in m;
      }
    }
    SortedConcat(l, m);
    assert forall i, j :: 0 <= i < |l + m| && 0 <= j < |r| ==> (l + m)[i] <= r[j] by {
      forall i, j | 0 <= i < |l + m| && 0 <= j < |r|
        ensures (l + m)[i] <= r[j]
      {
        assert (l + m)[i] in l + m && r[j] in r;
      }
    }
    SortedConcat(l + m, r);
  }

  /** The filters below and above a pivot taken from `s` each drop the pivot itself. */
  lemma PartitionShrinks(s: seq<int>, i: int)
    requires 0 <= i < |s|
    ensures |Below(s, s[i])| < |s| && |Above(s, s[i])| < |s|
  {
    var pivot := s[i];
    FilterDrops(s, x => x < pivot, i);
    FilterDrops(s, x => x > pivot, i);
  }

  /**
   * One step of quick sort: sorted permutations of the part below the pivot and
   * of the part above it, joined around the elements equal to it, give a sorted
   * permutation of the whole.
   */
  lemma QuickSortStep(s: seq<int>, pivot: int, sortedLeft: seq<int>, sortedRight: seq<int>)
    requires Sorted(sortedLeft) && multiset(sortedLeft) == multiset(Below(s, pivot))
    requires Sorted(sortedRight) && multiset(sortedRight) == multiset(Above(s, pivot))
    ensures Sorted(sortedLeft + Same(s, pivot) + sortedRight)
    ensures multiset(sortedLeft + Same(s, pivot) + sortedRight) == multiset(s)
  {
    MembersOfPermutation(sortedLeft, Below(s, pivot));
    MembersOfPermutation(sortedRight, Above(s, pivot));
    JoinAroundPivot(sortedLeft, Same(s, pivot), sortedRight, pivot);
    ThreeWayPartition(s, pivot);
  }

  /**
   * `quickSortHelper`, with the captured `operations` counter threaded through:
   * the sorted sequence and the number of increments the call makes. A call on
   * more than one element counts itself once and each of its three filters once
   * per element, then adds what its two recursive calls count.
   */
  function QuickSortHelper(s: seq<int>): (r: (seq<int>, nat))
    ensures Sorted(r.0) && multiset(r.0) == multiset(s)
    ensures |s| <= 1 ==> r == (s, 0)
    ensures |s| > 1 ==> r.1 >= 1 + 3 * |s|
    decreases |s|
  {
    if |s| <= 1 then (s, 0)
    else
      var pivot := s[|s| / 2];
      PartitionShrinks(s, |s| / 2);
      var left := QuickSortHelper(Below(s, pivot));
      var right := QuickSortHelper(Above(s, pivot));
      QuickSortStep(s, pivot, left.0, right.0);
      var count: nat := 1 + 3 * |s| + left.1 + right.1;
      (left.0 + Same(s, pivot) + right.0, count)
  }

  /** When every element equals the pivot, quick sort counts 1 + 3n and does not recurse. */
  lemma QuickSortOfConstant(s: seq<int>, v: int)
    requires |s| > 1
    requires forall i :: 0 <= i < |s| ==> s[i] == v
    ensures QuickSortHelper(s).1 == 1 + 3 * |s|
  {
    var pivot := s[|s| / 2];
    FilterNone(s, x => x < pivot);
    FilterNone(s, x => x > pivot);
  }

  /** `quickSort.code`: sorts a copy of the caller's array. */
  method QuickSort(arr: array<int>, elapsed: real) returns (r: ExecutionResult)
    ensures r.time == elapsed
    ensures Sorted(r.result) && multiset(r.result) == multiset(arr[..])
    ensures (r.result, r.operations) == QuickSortHelper(arr[..])
  {
    var sorted := QuickSortHelper(arr[..]);
    r := ExecutionResult(elapsed, sorted.0, sorted.1);
  }

  /** No element of `s` exceeds `x`. */
  ghost predicate AllAtMost(s: seq<int>, x: int) {
    forall k :: 0 <= k < |s| ==> s[k] <= x
  }

  /** Appending `x` below `y` keeps everything at most `y`. */
  lemma AppendAtMost(s: seq<int>, x: int, y: int)
    requires AllAtMost(s, y) && x <= y
    ensures AllAtMost(s + [x], y)
  {
  }

  /** Appending an element no smaller than any before it keeps a sequence sorted. */
  lemma AppendSorted(s: seq<int>, x: int)
    requires Sorted(s) && AllAtMost(s, x)
    ensures Sorted(s + [x])
  {
  }

  /** Taking the head `s[i]` of a sorted side moves the bound to the next head. */
  lemma TakeHead(result: seq<int>, s: seq<int>, i: int)
    requires Sorted(result) && Sorted(s) && 0 <= i < |s| && AllAtMost(result, s[i])
    ensures Sorted(result + [s[i]])
    ensures i + 1 < |s| ==> AllAtMost(result + [s[i]], s[i + 1])
    ensures multiset(result + [s[i]]) == multiset(result) + multiset{s[i]}
    ensures multiset(s[..i + 1]) == multiset(s[..i]) + multiset{s[i]}
  {
    assert s[..i + 1] == s[..i] + [s[i]];
    AppendSorted(result, s[i]);
    if i + 1 < |s| {
      AppendAtMost(result, s[i], s[i + 1]);
    }
  }

  /**
   * What `merge` knows after taking `i` elements of `left` and `j` of `right`:
   * `result` is a sorted permutation of them and no larger than either next head.
   */
  ghost predicate MergeInv(result: seq<int>, left: seq<int>, right: seq<int>, i: int, j: int) {
    && 0 <= i <= |left| && 0 <= j <= |right|
    && Sorted(left) && Sorted(right) && Sorted(result)
    && multiset(result) == multiset(left[..i]) + multiset(right[..j])
    && (i < |left| ==> AllAtMost(result, left[i]))
    && (j < |right| ==> AllAtMost(result, right[j]))
  }

  lemma MergeInvSymmetric(result: seq<int>, left: seq<int>, right: seq<int>, i: int, j: int)
    ensures MergeInv(result, left, right, i, j) <==> MergeInv(result, right, left, j, i)
  {
  }

  /** Taking the head `s[i]`, no larger than the other side's head `t[j]`, keeps `MergeInv`. */
  lemma TakeFrom(result: seq<int>, s: seq<int>, i: int, t: seq<int>, j: int)
    requires MergeInv(result, s, t, i, j) && i < |s| && j < |t| && s[i] <= t[j]
    ensures MergeInv(result + [s[i]], s, t, i + 1, j)
  {
    TakeHead(result, s, i);
    AppendAtMost(result, s[i], t[j]);
  }

  /** One step of `merge`: taking the smaller head, the right one on a tie, keeps `MergeInv`. */
  lemma MergeStep(result: seq<int>, left: seq<int>, right: seq<int>, i: int, j: int)
    requires MergeInv(result, left, right, i, j) && i < |left| && j < |right|
    ensures left[i] < right[j] ==> MergeInv(result + [left[i]], left, right, i + 1, j)
    ensures left[i] >= right[j] ==> MergeInv(result + [right[j]], left, right, i, j + 1)
  {
    if left[i] < right[j] {
      TakeFrom(result, left, i, right, j);
    } else {
      MergeInvSymmetric(result, left, right, i, j);
      TakeFrom(result, right, j, left, i);
      MergeInvSymmetric(result + [right[j]], left, right, i, j + 1);
    }
  }

  /**
   * `merge`: repeatedly takes the smaller head (the right one on a tie), one
   * counted comparison per element taken, then appends what remains of either
   * side. At most |left| + |right| - 1 comparisons, none if a side is empty.
   */
  method Merge(left: seq<int>, right: seq<int>) returns (merged: seq<int>, comparisons: nat)
    requires Sorted(left) && Sorted(right)
    ensures Sorted(merged) && multiset(merged) == multiset(left + right)
    ensures |left| == 0 || |right| == 0 ==> comparisons == 0
    ensures |left| > 0 && |right| > 0 ==>
      (if |left| < |right| then |left| else |right|) <= comparisons <= |left| + |right| - 1
  {
    var result := [];
    var i, j := 0, 0;
    comparisons := 0;
    while i < |left| && j < |right|
      invariant MergeInv(result, left, right, i, j)
      invariant i < |left| || j < |right| || (|left| == 0 && |right| == 0)
      invariant |left| == 0 || |right| == 0 ==> i + j == 0
      invariant comparisons == i + j
    {
      comparisons := comparisons + 1;
      MergeStep(result, left, right, i, j);
      if left[i] < right[j] {
        result := result + [left[i]];
        i := i + 1;
      } else {
        result := result + [right[j]];
        j := j + 1;
      }
    }
    MergeFinish(result, left, right, i, j);
    merged := result + left[i..] + right[j..];
  }

  /** A sorted suffix `s[i..]` whose head bounds `result` can follow it. */
  lemma SortedTail(result: seq<int>, s: seq<int>, i: int)
    requires Sorted(result) && Sorted(s) && 0 <= i <= |s|
    requires i < |s| ==> AllAtMost(result, s[i])
    ensures Sorted(result + s[i..])
  {
    var rest := s[i..];
    assert forall l :: 0 <= l < |rest| ==> s[i] <= rest[l];
    SortedConcat(result, rest);
  }

  /** The tail of `merge`: what is left of one side follows the merged prefix in order. */
  lemma MergeTailSorted(result: seq<int>, left: seq<int>, right: seq<int>, i: int, j: int)
    requires Sorted(left) && Sorted(right) && Sorted(result)
    requires 0 <= i <= |left| && 0 <= j <= |right| && (i == |left| || j == |right|)
    requires i < |left| ==> AllAtMost(result, left[i])
    requires j < |right| ==> AllAtMost(result, right[j])
    ensures Sorted(result + left[i..] + right[j..])
  {
    if i == |left| {
      SortedTail(result, right, j);
      assert result + left[i..] + right[j..] == result + right[j..];
    } else {
      SortedTail(result, left, i);
      assert result + left[i..] + right[j..] == result + left[i..];
    }
  }

  /** Once one side is used up, appending both remainders completes the merge. */
  lemma MergeFinish(result: seq<int>, left: seq<int>, right: seq<int>, i: int, j: int)
    requires MergeInv(result, left, right, i, j) && (i == |left| || j == |right|)
    ensures Sorted(result + left[i..] + right[j..])
    ensures multiset(result + left[i..] + right[j..]) == multiset(left + right)
  {
    MergeTailSorted(result, left, right, i, j);
    MergeTailPermutation(result, left, right, i, j);
  }

  lemma MergeTailPermutation(result: seq<int>, left: seq<int>, right: seq<int>, i: int, j: int)
    requires 0 <= i <= |left| && 0 <= j <= |right|
    requires multiset(result) == multiset(left[..i]) + multiset(right[..j])
    ensures multiset(result + left[i..] + right[j..]) == multiset(left + right)
  {
    assert left == left[..i] + left[i..] && right == right[..j] + right[j..];
  }

  /**
   * An upper bound on what `mergeSortHelper` counts on `n` elements: each split
   * counts once, and the merge that follows it at most `n - 1` times.
   */
  function MergeSortBound(n: nat): nat {
    if n <= 1 then 0 else n + MergeSortBound(n / 2) + MergeSortBound(n - n / 2)
  }

  function Pow2(k: nat): (r: nat)
    ensures r >= 1
  {
    if k == 0 then 1 else 2 * Pow2(k - 1)
  }

  lemma DoublingStep(k: nat, half: nat, m: int)
    requires k >= 1 && m == (k - 1) * half
    ensures 2 * half + 2 * m == k * (2 * half)
  {
  }

  /** On 2^k elements the bound is k * 2^k, which is the advertised O(n log n). */
  lemma {:induction false} MergeSortBoundOfPowerOfTwo(k: nat)
    ensures MergeSortBound(Pow2(k)) == k * Pow2(k)
  {
    if k > 0 {
      var half := Pow2(k - 1);
      var n := Pow2(k);
      assert n == 2 * half;
      assert n / 2 == half && n - n / 2 == half;
      MergeSortBoundOfPowerOfTwo(k - 1);
      DoublingStep(k, half, MergeSortBound(half));
    }
  }

  /**
   * `mergeSortHelper`: splits at `floor(n / 2)`, sorts both halves and merges
   * them. Besides sorting it returns how many times the shared counter was
   * bumped: once per split plus the merges' comparisons.
   */
  method MergeSortHelper(s: seq<int>) returns (sorted: seq<int>, operations: nat)
    ensures Sorted(sorted) && multiset(sorted) == multiset(s)
    ensures |s| <= 1 ==> sorted == s && operations == 0
    ensures |s| >= 1 ==> |s| - 1 <= operations <= MergeSortBound(|s|)
    decreases |s|
  {
    if |s| <= 1 {
      return s, 0;
    }
    var mid := |s| / 2;
    var left, leftOps := MergeSortHelper(s[..mid]);
    var right, rightOps := MergeSortHelper(s[mid..]);
    var comparisons;
    sorted, comparisons := Merge(left, right);
    assert |left| == mid && |right| == |s| - mid by {
      assert |left| == |multiset(left)| && |right| == |multiset(right)|;
    }
    assert s == s[..mid] + s[mid..];
    operations := 1 + leftOps + rightOps + comparisons;
  }

  /** `mergeSort.code`: sorts a copy of the caller's array. */
  method MergeSort(arr: array<int>, elapsed: real) returns (r: ExecutionResult)
    ensures r.time == elapsed
    ensures Sorted(r.result) && multiset(r.result) == multiset(arr[..])
    ensures arr.Length >= 1 ==> arr.Length - 1 <= r.operations <= MergeSortBound(arr.Length)
  {
    var sorted, operations := MergeSortHelper(arr[..]);
    r := ExecutionResult(elapsed, sorted, operations);
  }

  /** The `algorithms` record: the five built-in entries under their keys. */
  const BuiltIns: map<string, Algorithm> := map[
    "bubbleSort" := Algorithm("Bubble Sort", BuiltIn(Bubble), "O(n²)", "O(1)", Some(BuiltInOrigin)),
    "quickSort" := Algorithm("Quick Sort", BuiltIn(Quick), "O(n log n)", "O(log n)", Some(BuiltInOrigin)),
    "mergeSort" := Algorithm("Merge Sort", BuiltIn(SortKind.Merge), "O(n log n)", "O(n)", Some(BuiltInOrigin)),
    "insertionSort" := Algorithm("Insertion Sort", BuiltIn(Insertion), "O(n²)", "O(1)", Some(BuiltInOrigin)),
    "selectionSort" := Algorithm("Selection Sort", BuiltIn(Selection), "O(n²)", "O(1)", Some(BuiltInOrigin))
  ]

  /** The catalogue holds exactly the five sorts, each a built-in routine marked `Built-in`. */
  lemma BuiltInCatalogue()
    ensures BuiltIns.Keys == {"bubbleSort", "quickSort", "mergeSort", "insertionSort", "selectionSort"}
    ensures forall key :: key in BuiltIns ==>
      BuiltIns[key].code.BuiltIn? && BuiltIns[key].source == Some(BuiltInOrigin)
  {
  }

  /**
   * What the built-in sort `kind` reports for `input`: a sorted permutation of
   * it, and the operation count that sort's counter reaches.
   */
  predicate SortReport(kind: SortKind, input: seq<int>, r: ExecutionResult) {
    && Sorted(r.result) && multiset(r.result) == multiset(input)
    && (kind == Bubble || kind == Insertion ==> r.operations == Inversions(input))
    && (kind == Selection ==> r.operations == |input| * (|input| - 1) / 2)
    && (kind == Quick ==> r.operations == QuickSortHelper(input).1)
    && (kind == SortKind.Merge && |input| >= 1 ==> |input| - 1 <= r.operations <= MergeSortBound(|input|))
  }

  /**
   * Calls the `code` of a built-in entry. Whichever sort it is, the result is a
   * sorted permutation of the input, and the input array is left as it was.
   */
  method RunBuiltIn(kind: SortKind, arr: array<int>, elapsed: real) returns (r: ExecutionResult)
    ensures r.time == elapsed
    ensures Sorted(r.result) && multiset(r.result) == multiset(arr[..])
    ensures kind == Bubble || kind == Insertion ==> r.operations == Inversions(arr[..])
    ensures kind == Selection ==> r.operations == arr.Length * (arr.Length - 1) / 2
    ensures SortReport(kind, arr[..], r)
  {
    if kind == Bubble {
      r := BubbleSort(arr, elapsed);
    } else if kind == Quick {
      r := QuickSort(arr, elapsed);
    } else if kind == SortKind.Merge {
      r := MergeSort(arr, elapsed);
    } else if kind == Insertion {
      r := InsertionSort(arr, elapsed);
    } else {
      r := SelectionSort(arr, elapsed);
    }
  }

  /**
   * The reports of any two built-in sorts on the same input hold the same
   * array, and bubble and insertion sort also report the same count.
   */
  lemma BuiltInSortsAgree(input: seq<int>, k1: SortKind, r1: ExecutionResult, k2: SortKind, r2: ExecutionResult)
    requires SortReport(k1, input, r1) && SortReport(k2, input, r2)
    ensures r1.result == r2.result
    ensures k1 in {Bubble, Insertion} && k2 in {Bubble, Insertion} ==> r1.operations == r2.operations
  {
    SortedPermutationIsUnique(r1.result, r2.result);
  }
}
