/** The upper median: the middle one of the sorted values, the later one of two. */
module Medians {
  import opened Sorting

  function UpperMedian(values: seq<nat>): nat
    requires values != []
  {
    SortKeepsLength(values);
    Sort(NumberLe, values)[|values| / 2]
  }

  lemma SortKeepsLength(values: seq<nat>)
    ensures |Sort(NumberLe, values)| == |values|
  {
    NumbersAreOrdered();
    SortSorts(NumberLe, values);
    assert |multiset(Sort(NumberLe, values))| == |multiset(values)|;
  }

  /** How many values are less than the bound. */
  function CountBelow(values: seq<nat>, bound: nat): (n: nat)
    ensures n <= |values|
  {
    if values == [] then 0 else (if values[0] < bound then 1 else 0) + CountBelow(values[1..], bound)
  }

  /** No more than half of the values are less than `m`, and more than half are at most `m`. */
  ghost predicate IsUpperMedian(values: seq<nat>, m: nat) {
    CountBelow(values, m) <= |values| / 2 < CountBelow(values, m + 1)
  }

  lemma {:induction false} InsertKeepsCount(x: nat, s: seq<nat>, bound: nat)
    ensures CountBelow(Insert(NumberLe, x, s), bound) == (if x < bound then 1 else 0) + CountBelow(s, bound)
  {
    if s != [] && !NumberLe(x, s[0]) {
      InsertKeepsCount(x, s[1..], bound);
    } else {
      assert ([x] + s)[1..] == s;
    }
  }

  lemma {:induction false} SortKeepsCount(s: seq<nat>, bound: nat)
    ensures CountBelow(Sort(NumberLe, s), bound) == CountBelow(s, bound)
  {
    if s != [] {
      SortKeepsCount(s[1..], bound);
      InsertKeepsCount(s[0], Sort(NumberLe, s[1..]), bound);
    }
  }

  lemma {:induction false} CountInSorted(s: seq<nat>, k: nat, bound: nat)
    requires Sorted(NumberLe, s) && k < |s|
    ensures if s[k] < bound then k < CountBelow(s, bound) else CountBelow(s, bound) <= k
  {
    assert forall i :: 0 <= i < k ==> NumberLe(s[i], s[k]);
    if k > 0 {
      CountInSorted(s[1..], k - 1, bound);
    } else if bound <= s[0] {
      NoneBelow(s, bound);
    }
  }

  lemma {:induction false} NoneBelow(s: seq<nat>, bound: nat)
    requires forall i :: 0 <= i < |s| ==> bound <= s[i]
    ensures CountBelow(s, bound) == 0
  {
    if s != [] {
      NoneBelow(s[1..], bound);
    }
  }

  /** The upper median is that order statistic, and nothing else is. */
  lemma UpperMedianIsTheMiddle(values: seq<nat>, m: nat)
    requires values != []
    ensures m == UpperMedian(values) <==> IsUpperMedian(values, m)
  {
    var sorted, k := Sort(NumberLe, values), |values| / 2;
    NumbersAreOrdered();
    SortSorts(NumberLe, values);
    SortKeepsLength(values);
    var median := sorted[k];
    forall bound: nat ensures if median < bound then k < CountBelow(values, bound) else CountBelow(values, bound) <= k {
      SortKeepsCount(values, bound);
      CountInSorted(sorted, k, bound);
    }
  }
}
