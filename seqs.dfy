/**
 * Sequence helpers shared by several parts of the program: the `filter`,
 * `Array.from(new Set(...))`, sum and `Math.min`/`Math.max` idioms the
 * TypeScript code uses. All of them walk their input from left to right,
 * as the source's `reduce` and `forEach` callbacks do, so each is defined
 * on the last element of a non-empty sequence.
 */
module Seqs {

  /** The elements of `s` that satisfy `p`, in their original order (`s.filter(p)`). */
  function Filter<T(!new)>(s: seq<T>, p: T -> bool): (r: seq<T>)
    ensures |r| <= |s|
    ensures forall x :: x in r <==> x in s && p(x)
  {
    if |s| == 0 then []
    else Filter(s[..|s| - 1], p) + (if p(s[|s| - 1]) then [s[|s| - 1]] else [])
  }

  lemma {:induction false} FilterAppend<T(!new)>(s: seq<T>, t: seq<T>, p: T -> bool)
    ensures Filter(s + t, p) == Filter(s, p) + Filter(t, p)
    decreases |t|
  {
    if |t| == 0 {
      assert s + t == s;
    } else {
      var t' := t[..|t| - 1];
      assert (s + t)[..|s + t| - 1] == s + t';
      FilterAppend(s, t', p);
    }
  }

  lemma {:induction false} FilterAll<T(!new)>(s: seq<T>, p: T -> bool)
    requires forall x :: x in s ==> p(x)
    ensures Filter(s, p) == s
    decreases |s|
  {
    if |s| > 0 {
      FilterAll(s[..|s| - 1], p);
      assert s[..|s| - 1] + [s[|s| - 1]] == s;
    }
  }

  lemma {:induction false} FilterNone<T(!new)>(s: seq<T>, p: T -> bool)
    requires forall x :: x in s ==> !p(x)
    ensures Filter(s, p) == []
    decreases |s|
  {
    if |s| > 0 {
      FilterNone(s[..|s| - 1], p);
    }
  }

  /** Filtering by `q` first changes nothing when `p` only keeps what `q` keeps. */
  lemma {:induction false} FilterOfFilter<T(!new)>(s: seq<T>, q: T -> bool, p: T -> bool)
    requires forall x :: p(x) ==> q(x)
    ensures Filter(Filter(s, q), p) == Filter(s, p)
    decreases |s|
  {
    if |s| > 0 {
      var init, last := s[..|s| - 1], s[|s| - 1];
      FilterOfFilter(init, q, p);
      FilterAppend(Filter(init, q), if q(last) then [last] else [], p);
    }
  }

  /** A filter that rejects at least one element returns a strictly shorter sequence. */
  lemma {:induction false} FilterDrops<T(!new)>(s: seq<T>, p: T -> bool, i: int)
    requires 0 <= i < |s| && !p(s[i])
    ensures |Filter(s, p)| < |s|
    decreases |s|
  {
    if i < |s| - 1 {
      FilterDrops(s[..|s| - 1], p, i);
    }
  }

  /** Whether no value occurs twice in `s`. */
  predicate NoDuplicates<T(==)>(s: seq<T>) {
    forall i, j :: 0 <= i < j < |s| ==> s[i] != s[j]
  }

  /**
   * The distinct values of `s` in order of first appearance, which is what
   * `Array.from(new Set(s))` yields and the order in which a group-by
   * `reduce` creates the keys of its accumulator.
   */
  function Distinct<T(==,!new)>(s: seq<T>): (r: seq<T>)
    ensures forall x :: x in r <==> x in s
    ensures NoDuplicates(r)
    ensures |r| <= |s|
  {
    if |s| == 0 then []
    else
      var d := Distinct(s[..|s| - 1]);
      if s[|s| - 1] in d then d else d + [s[|s| - 1]]
  }

  /** The position of the first occurrence of `x` in `s`. */
  function FirstIndex<T(==)>(s: seq<T>, x: T): (k: nat)
    requires x in s
    ensures k < |s| && s[k] == x
    ensures forall i :: 0 <= i < k ==> s[i] != x
  {
    var init := s[..|s| - 1];
    if x in init then FirstIndex(init, x) else |s| - 1
  }

  /**
   * `Distinct` lists the values in the order of their first occurrences: a
   * value listed earlier first occurs earlier.
   */
  lemma {:induction false} DistinctInOrder<T(!new)>(s: seq<T>, i: int, j: int)
    requires 0 <= i < j < |Distinct(s)|
    ensures FirstIndex(s, Distinct(s)[i]) < FirstIndex(s, Distinct(s)[j])
    decreases |s|
  {
    var init, last := s[..|s| - 1], s[|s| - 1];
    var d := Distinct(init);
    if j < |d| {
      DistinctInOrder(init, i, j);
    } else {
      assert Distinct(s)[j] == last && last !in init;
    }
  }

  /** `DistinctInOrder` for every pair of listed values. */
  lemma DistinctOrdered<T(!new)>(s: seq<T>)
    ensures forall i, j :: 0 <= i < j < |Distinct(s)| ==> FirstIndex(s, Distinct(s)[i]) < FirstIndex(s, Distinct(s)[j])
  {
    forall i, j | 0 <= i < j < |Distinct(s)|
      ensures FirstIndex(s, Distinct(s)[i]) < FirstIndex(s, Distinct(s)[j])
    {
      DistinctInOrder(s, i, j);
    }
  }

  /** Appending a value adds it to the distinct values when it is new. */
  lemma DistinctSnoc<T(!new)>(s: seq<T>, x: T)
    ensures Distinct(s + [x]) == if x in s then Distinct(s) else Distinct(s) + [x]
  {
    assert (s + [x])[..|s|] == s;
  }

  /** Number of occurrences of `x` in `s`. */
  function Count<T(==)>(s: seq<T>, x: T): nat {
    multiset(s)[x]
  }

  function Sum(ts: seq<real>): real {
    if |ts| == 0 then 0.0 else Sum(ts[..|ts| - 1]) + ts[|ts| - 1]
  }

  /** The arithmetic mean `ts.reduce((a, b) => a + b, 0) / ts.length`. */
  function Mean(ts: seq<real>): real
    requires |ts| > 0
  {
    Sum(ts) / (|ts| as real)
  }

  /** `Math.min(...ts)` for a non-empty `ts`. */
  function Min(ts: seq<real>): (m: real)
    requires |ts| > 0
    ensures m in ts
    ensures forall i :: 0 <= i < |ts| ==> m <= ts[i]
  {
    if |ts| == 1 then ts[0]
    else
      var init := ts[..|ts| - 1];
      var m := Min(init);
      assert forall i :: 0 <= i < |ts| - 1 ==> ts[i] == init[i];
      if ts[|ts| - 1] < m then ts[|ts| - 1] else m
  }

  /** `Math.max(...ts)` for a non-empty `ts`. */
  function Max(ts: seq<real>): (m: real)
    requires |ts| > 0
    ensures m in ts
    ensures forall i :: 0 <= i < |ts| ==> ts[i] <= m
  {
    if |ts| == 1 then ts[0]
    else
      var init := ts[..|ts| - 1];
      var m := Max(init);
      assert forall i :: 0 <= i < |ts| - 1 ==> ts[i] == init[i];
      if ts[|ts| - 1] > m then ts[|ts| - 1] else m
  }

  lemma {:induction false} SumBounds(ts: seq<real>, lo: real, hi: real)
    requires forall i :: 0 <= i < |ts| ==> lo <= ts[i] <= hi
    ensures (|ts| as real) * lo <= Sum(ts) <= (|ts| as real) * hi
    decreases |ts|
  {
    if |ts| > 0 {
      var init := ts[..|ts| - 1];
      assert forall i :: 0 <= i < |init| ==> init[i] == ts[i];
      SumBounds(init, lo, hi);
    }
  }

  lemma DivideBounds(lo: real, s: real, hi: real, n: real)
    requires n > 0.0
    requires n * lo <= s <= n * hi
    ensures lo <= s / n <= hi
  {
  }

  /** A mean lies within any bounds that hold of every element. */
  lemma MeanWithin(ts: seq<real>, lo: real, hi: real)
    requires |ts| > 0
    requires forall i :: 0 <= i < |ts| ==> lo <= ts[i] <= hi
    ensures lo <= Mean(ts) <= hi
  {
    SumBounds(ts, lo, hi);
    DivideBounds(lo, Sum(ts), hi, |ts| as real);
  }

  /** The mean of a non-empty sequence lies between its minimum and its maximum. */
  lemma MeanBetweenMinAndMax(ts: seq<real>)
    requires |ts| > 0
    ensures Min(ts) <= Mean(ts) <= Max(ts)
  {
    MeanWithin(ts, Min(ts), Max(ts));
  }

  /** A mean of values that are all at least `lo` is at least `lo`. */
  lemma MeanAtLeast(ts: seq<real>, lo: real)
    requires |ts| > 0
    requires forall i :: 0 <= i < |ts| ==> lo <= ts[i]
    ensures lo <= Mean(ts)
  {
    MeanBetweenMinAndMax(ts);
  }
}
