/**
 * Sequences of duration samples: ascending sort, sum, and the counting
 * functions that define an order statistic independently of any sort.
 */
module Samples {

  predicate Sorted(s: seq<int>) {
    forall i, j :: 0 <= i < j < |s| ==> s[i] <= s[j]
  }

  /** Inserts `x` into an ascending sequence, keeping it ascending. */
  function InsertSorted(x: int, s: seq<int>): (r: seq<int>)
    requires Sorted(s)
    ensures Sorted(r)
    ensures multiset(r) == multiset(s) + multiset{x}
    ensures |r| == |s| + 1 && (r[0] == x || (s != [] && r[0] == s[0]))
  {
    if s == [] || x <= s[0] then
      PrependSorted(x, s);
      [x] + s
    else
      var t := InsertSorted(x, s[1..]);
      assert multiset([s[0]] + t) == multiset(s) + multiset{x} by {
        assert s == [s[0]] + s[1..];
      }
      assert Sorted(s[1..]) && s[0] <= t[0];
      PrependSorted(s[0], t);
      [s[0]] + t
  }

  /** A value no larger than the head of an ascending sequence extends it. */
  lemma PrependSorted(a: int, t: seq<int>)
    requires Sorted(t) && (t == [] || a <= t[0])
    ensures Sorted([a] + t)
  {
  }

  /** `std::sort` on durations: the ascending arrangement of the same samples. */
  function Sort(s: seq<int>): (r: seq<int>)
    ensures Sorted(r)
    ensures multiset(r) == multiset(s)
    ensures |r| == |s|
  {
    if s == [] then []
    else
      assert s == [s[0]] + s[1..];
      var r := InsertSorted(s[0], Sort(s[1..]));
      assert |r| == |multiset(r)|;
      r
  }

  function Sum(s: seq<int>): int {
    if s == [] then 0 else s[0] + Sum(s[1..])
  }

  /** How many samples are strictly below `v`. */
  function CountBelow(s: seq<int>, v: int): nat {
    if s == [] then 0 else (if s[0] < v then 1 else 0) + CountBelow(s[1..], v)
  }

  /** How many samples are at most `v`. */
  function CountAtMost(s: seq<int>, v: int): nat {
    if s == [] then 0 else (if s[0] <= v then 1 else 0) + CountAtMost(s[1..], v)
  }

  /**
   * `v` is the value at index `k` of `s` once sorted: fewer than `k + 1`
   * samples lie below it and more than `k` lie at or below it.
   */
  predicate IsOrderStatistic(s: seq<int>, k: int, v: int) {
    CountBelow(s, v) <= k < CountAtMost(s, v)
  }

  lemma {:induction false} AppendCounts(a: seq<int>, b: seq<int>, v: int)
    ensures CountBelow(a + b, v) == CountBelow(a, v) + CountBelow(b, v)
    ensures CountAtMost(a + b, v) == CountAtMost(a, v) + CountAtMost(b, v)
    ensures Sum(a + b) == Sum(a) + Sum(b)
  {
    if a != [] {
      assert (a + b)[1..] == a[1..] + b;
      AppendCounts(a[1..], b, v);
    } else {
      assert a + b == b;
    }
  }

  lemma RemoveAtMultiset(b: seq<int>, j: nat)
    requires j < |b|
    ensures multiset(b[..j] + b[j + 1..]) == multiset(b) - multiset{b[j]}
  {
    assert b == b[..j] + [b[j]] + b[j + 1..];
    assert multiset(b) == multiset(b[..j]) + multiset{b[j]} + multiset(b[j + 1..]);
  }

  /** Counts and sums depend only on the multiset of samples, not their order. */
  lemma {:induction false} PermutationCounts(a: seq<int>, b: seq<int>, v: int)
    requires multiset(a) == multiset(b)
    ensures CountBelow(a, v) == CountBelow(b, v)
    ensures CountAtMost(a, v) == CountAtMost(b, v)
    ensures Sum(a) == Sum(b)
  {
    if a == [] {
      assert |b| == |multiset(b)| == 0;
    } else {
      var x := a[0];
      assert x in multiset(b);
      var j :| 0 <= j < |b| && b[j] == x;
      var rest := b[..j] + b[j + 1..];
      RemoveAtMultiset(b, j);
      assert a == [x] + a[1..];
      assert multiset(a[1..]) == multiset(a) - multiset{x};
      PermutationCounts(a[1..], rest, v);
      RemoveAtCounts(b, j, v);
    }
  }

  lemma RemoveAtCounts(b: seq<int>, j: nat, v: int)
    requires j < |b|
    ensures CountBelow(b, v) == CountBelow(b[..j] + b[j + 1..], v) + (if b[j] < v then 1 else 0)
    ensures CountAtMost(b, v) == CountAtMost(b[..j] + b[j + 1..], v) + (if b[j] <= v then 1 else 0)
    ensures Sum(b) == Sum(b[..j] + b[j + 1..]) + b[j]
  {
    var x := b[j];
    assert b == b[..j] + ([x] + b[j + 1..]);
    AppendCounts(b[..j], [x] + b[j + 1..], v);
    assert ([x] + b[j + 1..])[1..] == b[j + 1..];
    AppendCounts(b[..j], b[j + 1..], v);
  }

  lemma {:induction false} CountBelowOfUpper(s: seq<int>, v: int)
    requires forall i :: 0 <= i < |s| ==> v <= s[i]
    ensures CountBelow(s, v) == 0
  {
    if s != [] {
      CountBelowOfUpper(s[1..], v);
    }
  }

  lemma {:induction false} CountAtMostOfLower(s: seq<int>, v: int)
    requires forall i :: 0 <= i < |s| ==> s[i] <= v
    ensures CountAtMost(s, v) == |s|
  {
    if s != [] {
      CountAtMostOfLower(s[1..], v);
    }
  }

  lemma {:induction false} CountBelowBound(s: seq<int>, v: int)
    ensures CountBelow(s, v) <= |s|
  {
    if s != [] {
      CountBelowBound(s[1..], v);
    }
  }

  /** In an ascending sequence the element at index `k` is the `k`-th order statistic. */
  lemma SortedOrderStatistic(r: seq<int>, k: nat)
    requires Sorted(r) && k < |r|
    ensures IsOrderStatistic(r, k, r[k])
  {
    var v := r[k];
    assert r == r[..k] + r[k..];
    AppendCounts(r[..k], r[k..], v);
    CountBelowOfUpper(r[k..], v);
    CountBelowBound(r[..k], v);
    assert r[k..] == r[k..k + 1] + r[k + 1..];
    AppendCounts(r[k..k + 1], r[k + 1..], v);
    assert r[..k + 1] == r[..k] + r[k..k + 1];
    AppendCounts(r[..k], r[k..k + 1], v);
    CountAtMostOfLower(r[..k + 1], v);
  }

  lemma {:induction false} CountsMonotone(s: seq<int>, v: int, w: int)
    requires v < w
    ensures CountAtMost(s, v) <= CountBelow(s, w)
  {
    if s != [] {
      CountsMonotone(s[1..], v, w);
    }
  }

  /** An order statistic is a single value: two candidates for rank `k` coincide. */
  lemma OrderStatisticUnique(s: seq<int>, k: int, v: int, w: int)
    requires IsOrderStatistic(s, k, v) && IsOrderStatistic(s, k, w)
    ensures v == w
  {
    if v < w {
      CountsMonotone(s, v, w);
    } else if w < v {
      CountsMonotone(s, w, v);
    }
  }

  /** The value at rank `k` of the samples is the value at index `k` of their sort. */
  lemma SortOrderStatistic(s: seq<int>, k: nat)
    requires k < |s|
    ensures IsOrderStatistic(s, k, Sort(s)[k])
  {
    var r := Sort(s);
    SortedOrderStatistic(r, k);
    PermutationCounts(r, s, r[k]);
  }

  /** There is only one ascending arrangement of a multiset of samples. */
  lemma SortedUnique(a: seq<int>, b: seq<int>)
    requires Sorted(a) && Sorted(b) && multiset(a) == multiset(b)
    ensures a == b
  {
    assert |a| == |multiset(a)| == |b|;
    forall k | 0 <= k < |a|
      ensures a[k] == b[k]
    {
      SortedOrderStatistic(a, k);
      SortedOrderStatistic(b, k);
      PermutationCounts(b, a, b[k]);
      OrderStatisticUnique(a, k, a[k], b[k]);
    }
  }

  /** Any ascending arrangement of the samples is their sort. */
  lemma SortIs(s: seq<int>, t: seq<int>)
    requires Sorted(t) && multiset(s) == multiset(t)
    ensures Sort(s) == t
  {
    SortedUnique(Sort(s), t);
  }

  /** Samples all within `[lo, hi]` sum to within `[lo * n, hi * n]`. */
  lemma {:induction false} SumBounds(s: seq<int>, lo: int, hi: int)
    requires forall i :: 0 <= i < |s| ==> lo <= s[i] <= hi
    ensures lo * |s| <= Sum(s) <= hi * |s|
  {
    if s != [] {
      SumBounds(s[1..], lo, hi);
    }
  }
}
