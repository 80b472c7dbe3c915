/**
 * The fixed catalogue of test cases and the generator of their input data:
 * the values 1..size, ascending, descending or in some shuffled order.
 */
module TestCases {
  import opened Types
  import opened SortFacts

  /** The `testCases` record; absent `sorted`/`reversed` flags read as false. */
  const Catalogue: map<string, TestCase> := map[
    "small" := TestCase("Small (100)", 100, false, false),
    "medium" := TestCase("Medium (1000)", 1000, false, false),
    "large" := TestCase("Large (5000)", 5000, false, false),
    "sorted" := TestCase("Already Sorted (1000)", 1000, true, false),
    "reversed" := TestCase("Reversed (1000)", 1000, false, true)
  ]

  /** Five entries; only `sorted` and `reversed` carry a flag, one each. */
  lemma CatalogueShape()
    ensures |Catalogue| == 5
    ensures Catalogue.Keys == {"small", "medium", "large", "sorted", "reversed"}
    ensures forall key :: key in Catalogue ==> !(Catalogue[key].sorted && Catalogue[key].reversed)
    ensures Catalogue["sorted"].sorted && !Catalogue["sorted"].reversed
    ensures Catalogue["reversed"].reversed && !Catalogue["reversed"].sorted
    ensures !Catalogue["small"].sorted && !Catalogue["small"].reversed
    ensures !Catalogue["medium"].sorted && !Catalogue["medium"].reversed
    ensures !Catalogue["large"].sorted && !Catalogue["large"].reversed
    ensures Catalogue["small"].size == 100 && Catalogue["medium"].size == 1000 && Catalogue["large"].size == 5000
    ensures Catalogue["sorted"].size == 1000 && Catalogue["reversed"].size == 1000
  {
    assert Catalogue.Keys == {"small", "medium", "large", "sorted", "reversed"};
  }

  /** `Array.from({ length: n }, (_, i) => i + 1)`. */
  function Ascending(n: nat): (r: seq<int>)
    ensures |r| == n
  {
    seq(n, i => i + 1)
  }

  /** The values n, n-1, ..., 1. */
  function Descending(n: nat): (r: seq<int>)
    ensures |r| == n
  {
    seq(n, i => n - i)
  }

  /** The elements of `s` in the opposite order. */
  function Reversed(s: seq<int>): (r: seq<int>)
    ensures |r| == |s|
  {
    seq(|s|, i requires 0 <= i < |s| => s[|s| - 1 - i])
  }

  /** Every value 1..n occurs exactly once in `Ascending(n)`, and nothing else does. */
  lemma {:induction false} AscendingCounts(n: nat, v: int)
    ensures multiset(Ascending(n))[v] == if 1 <= v <= n then 1 else 0
  {
    if n > 0 {
      AscendingCounts(n - 1, v);
      assert Ascending(n) == Ascending(n - 1) + [n];
    }
  }

  lemma AscendingIsSorted(n: nat)
    ensures Sorted(Ascending(n))
  {
  }

  /** The reversed layout is strictly descending. */
  lemma DescendingIsStrictlyDescending(n: nat)
    ensures forall i, j :: 0 <= i < j < n ==> Descending(n)[i] > Descending(n)[j]
  {
  }

  lemma ReversedAscending(n: nat)
    ensures Reversed(Ascending(n)) == Descending(n)
  {
  }

  /** Reversing a sequence permutes it. */
  lemma {:induction false} ReversedIsPermutation(s: seq<int>)
    ensures multiset(Reversed(s)) == multiset(s)
    decreases |s|
  {
    if |s| > 0 {
      var tail := s[1..];
      ReversedIsPermutation(tail);
      assert Reversed(s) == Reversed(tail) + [s[0]];
      assert s == [s[0]] + tail;
    }
  }

  /** `Array.prototype.reverse`: reverses `a` in place. */
  method ReverseInPlace(a: array<int>)
    modifies a
    ensures a[..] == Reversed(old(a[..]))
  {
    var n := a.Length;
    for i := 0 to n / 2
      invariant forall k :: 0 <= k < i ==> a[k] == old(a[n - 1 - k]) && a[n - 1 - k] == old(a[k])
      invariant forall k :: i <= k < n - i ==> a[k] == old(a[k])
    {
      a[i], a[n - 1 - i] := a[n - 1 - i], a[i];
    }
  }

  /**
   * Permutes `a` in place into an order chosen arbitrarily, standing for
   * `arr.sort(() => Math.random() - 0.5)`: a Fisher-Yates pass whose random
   * choices are left to the caller's environment.
   */
  method Shuffle(a: array<int>)
    modifies a
    ensures multiset(a[..]) == multiset(old(a[..]))
  {
    var n := a.Length;
    for i := 0 to n
      invariant multiset(a[..]) == multiset(old(a[..]))
    {
      var j :| i <= j < n;
      a[i], a[j] := a[j], a[i];
    }
  }

  /**
   * `generateTestData`: a fresh array of the values 1..size, descending when
   * `reversed` is set (which wins over `sorted`), ascending when only `sorted` is
   * set, and in some shuffled order otherwise.
   */
  method GenerateTestData(size: nat, sorted: bool, reversed: bool) returns (a: array<int>)
    ensures fresh(a)
    ensures a.Length == size
    ensures multiset(a[..]) == multiset(Ascending(size))
    ensures reversed ==> a[..] == Descending(size)
    ensures !reversed && sorted ==> a[..] == Ascending(size)
  {
    a := new int[size](i => i + 1);
    assert a[..] == Ascending(size);
    if reversed {
      ReverseInPlace(a);
      ReversedIsPermutation(Ascending(size));
      ReversedAscending(size);
      return;
    }
    if sorted {
      return;
    }
    Shuffle(a);
  }

  /** Whatever the flags, the generated data holds each of 1..size exactly once. */
  lemma GeneratedValues(data: seq<int>, size: nat, v: int)
    requires multiset(data) == multiset(Ascending(size))
    ensures |data| == size
    ensures multiset(data)[v] == if 1 <= v <= size then 1 else 0
  {
    AscendingCounts(size, v);
    assert |data| == |multiset(data)|;
  }
}
