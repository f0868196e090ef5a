/**
 * The statistics reduction of `ProfilerObject::LogData`: sort the samples,
 * then take best, worst, median, the two 5% order statistics, a truncating
 * average, and choose one display unit from the worst sample.
 */
module Statistics {
  import opened Samples

  /**
   * C++ integer division on the signed duration count: the quotient is
   * truncated toward zero (Dafny's own `/` is Euclidean).
   */
  function TruncDiv(a: int, b: int): (q: int)
    requires b > 0
    ensures a >= 0 ==> q * b <= a < q * b + b
    ensures a < 0 ==> q * b - b < a <= q * b
  {
    if a >= 0 then a / b else -((-a) / b)
  }

  lemma MulMonotone(x: int, y: int, n: int)
    requires n > 0 && x * n <= y * n
    ensures x <= y
  {
  }

  /** A truncated quotient of a value between `lo * n` and `hi * n` lies between `lo` and `hi`. */
  lemma TruncDivBetween(a: int, n: int, lo: int, hi: int)
    requires n > 0 && lo * n <= a <= hi * n
    ensures lo <= TruncDiv(a, n) <= hi
  {
    var q := TruncDiv(a, n);
    if a >= 0 {
      MulMonotone(q, hi, n);
      assert lo * n < (q + 1) * n;
      MulMonotone(lo, q + 1, n);
    } else {
      MulMonotone(lo, q, n);
      assert (q - 1) * n < hi * n;
      MulMonotone(q - 1, hi, n);
    }
  }

  /** Index of the worst-5% sample: `(size_t)(0.95 * n)`, taken as floor(95n / 100). */
  function Worst5Index(n: nat): (k: nat)
    requires n > 0
    ensures k < n
  {
    (95 * n) / 100
  }

  /** Index of the best-5% sample: `(size_t)(0.05 * n)`, taken as floor(5n / 100). */
  function Best5Index(n: nat): (k: nat)
    requires n > 0
    ensures k <= Worst5Index(n)
  {
    (5 * n) / 100
  }

  /** The tail metrics are reported only from 40 samples on. */
  const TailThreshold: nat := 40

  datatype Summary = Summary(average: int, median: int, worst: int, best: int, worst5: int, best5: int)

  /** The median of an ascending sequence, with the even case averaged as the C++ does. */
  function MedianOfSorted(d: seq<int>): int
    requires |d| > 0
  {
    var n := |d|;
    if n % 2 == 0 then TruncDiv(d[n / 2 - 1] + d[n / 2], 2) else d[n / 2]
  }

  /** Reduces a non-empty sample set: sort, then read the metrics off the sorted samples. */
  function Summarize(samples: seq<int>): Summary
    requires |samples| > 0
  {
    var d := Sort(samples);
    var n := |d|;
    Summary(TruncDiv(Sum(d), n), MedianOfSorted(d), d[n - 1], d[0], d[Worst5Index(n)], d[Best5Index(n)])
  }

  /** The ranks of the two central samples when their count is even. */
  function LowerMiddle(n: nat): int {
    n / 2 - 1
  }

  function UpperMiddle(n: nat): int {
    n / 2
  }

  /**
   * The rank-based metrics are the order statistics of the samples as
   * recorded, before sorting, at the stated ranks: best and worst first.
   */
  lemma SummarizeRanks(samples: seq<int>)
    requires |samples| > 0
    ensures var r := Summarize(samples);
      && IsOrderStatistic(samples, 0, r.best)
      && IsOrderStatistic(samples, |samples| - 1, r.worst)
  {
    SortOrderStatistic(samples, 0);
    SortOrderStatistic(samples, |samples| - 1);
  }

  /** The two 5% metrics are the order statistics at their truncated ranks. */
  lemma SummarizeTailRanks(samples: seq<int>)
    requires |samples| > 0
    ensures var r := Summarize(samples);
      && IsOrderStatistic(samples, Worst5Index(|samples|), r.worst5)
      && IsOrderStatistic(samples, Best5Index(|samples|), r.best5)
  {
    SortOrderStatistic(samples, Worst5Index(|samples|));
    SortOrderStatistic(samples, Best5Index(|samples|));
  }

  /**
   * The median of an odd count is the central order statistic; with an even
   * count it is the truncated mean of the two central order statistics.
   */
  lemma SummarizeMedian(samples: seq<int>)
    requires |samples| > 0
    ensures var r := Summarize(samples);
      |samples| % 2 == 1 ==> IsOrderStatistic(samples, UpperMiddle(|samples|), r.median)
    ensures var r := Summarize(samples);
      |samples| % 2 == 0 ==>
        exists lo, hi ::
          && IsOrderStatistic(samples, LowerMiddle(|samples|), lo)
          && IsOrderStatistic(samples, UpperMiddle(|samples|), hi)
          && r.median == TruncDiv(lo + hi, 2)
  {
    var d := Sort(samples);
    var n := |d|;
    SortOrderStatistic(samples, n / 2);
    if n % 2 == 0 {
      SortOrderStatistic(samples, n / 2 - 1);
      assert MedianOfSorted(d) == TruncDiv(d[LowerMiddle(n)] + d[UpperMiddle(n)], 2);
    }
  }

  /** The average is the truncated mean of the samples in recording order. */
  lemma SummarizeAverage(samples: seq<int>)
    requires |samples| > 0
    ensures Summarize(samples).average == TruncDiv(Sum(samples), |samples|)
  {
    PermutationCounts(Sort(samples), samples, 0);
  }

  /** Best and worst bound every sample. */
  lemma SummarizeSpread(samples: seq<int>)
    requires |samples| > 0
    ensures var r := Summarize(samples);
      forall i :: 0 <= i < |samples| ==> r.best <= samples[i] <= r.worst
  {
    var d := Sort(samples);
    var n := |d|;
    forall i | 0 <= i < |samples|
      ensures d[0] <= samples[i] <= d[n - 1]
    {
      assert samples[i] in multiset(d);
    }
  }

  /**
   * Every other metric lies between best and worst: best <= median,
   * average <= worst and best <= best5 <= worst5 <= worst.
   */
  lemma SummarizeBounds(samples: seq<int>)
    requires |samples| > 0
    ensures var r := Summarize(samples);
      && r.best <= r.median <= r.worst
      && r.best <= r.average <= r.worst
      && r.best <= r.best5 <= r.worst5 <= r.worst
  {
    var d := Sort(samples);
    var n := |d|;
    var lo, hi := Best5Index(n), Worst5Index(n);
    assert d[0] <= d[lo] <= d[hi] <= d[n - 1];
    MedianBounds(d);
    AverageBounds(d);
  }

  lemma MedianBounds(d: seq<int>)
    requires |d| > 0 && Sorted(d)
    ensures d[0] <= MedianOfSorted(d) <= d[|d| - 1]
  {
    var n := |d|;
    if n % 2 == 0 {
      TruncDivBetween(d[n / 2 - 1] + d[n / 2], 2, d[0], d[n - 1]);
    }
  }

  lemma AverageBounds(d: seq<int>)
    requires |d| > 0 && Sorted(d)
    ensures d[0] <= TruncDiv(Sum(d), |d|) <= d[|d| - 1]
  {
    SumBounds(d, d[0], d[|d| - 1]);
    TruncDivBetween(Sum(d), |d|, d[0], d[|d| - 1]);
  }

  /** The display unit of a region, with its label and nanoseconds per unit. */
  datatype Unit = Nanoseconds | Microseconds | Milliseconds | Seconds {
    function Label(): string {
      match this
      case Nanoseconds => " ns"
      case Microseconds => " μs"
      case Milliseconds => " ms"
      case Seconds => " s"
    }

    function Divider(): nat {
      match this
      case Nanoseconds => 1
      case Microseconds => 1_000
      case Milliseconds => 1_000_000
      case Seconds => 1_000_000_000
    }
  }

  /**
   * The unit chosen from the worst sample: the largest unit of which the
   * worst sample is at least one whole unit, capped at seconds. The result
   * is determined by the two bounds below.
   */
  function UnitFor(worst: int): (u: Unit)
    ensures u == Nanoseconds <==> worst < 1_000
    ensures u != Nanoseconds ==> u.Divider() <= worst
    ensures u != Seconds ==> worst < 1_000 * u.Divider()
  {
    if worst < 1_000 then Nanoseconds
    else if worst < 1_000_000 then Microseconds
    else if worst < 1_000_000_000 then Milliseconds
    else Seconds
  }

  /** A larger worst sample never selects a smaller unit. */
  lemma UnitMonotone(w1: int, w2: int)
    requires w1 <= w2
    ensures UnitFor(w1).Divider() <= UnitFor(w2).Divider()
  {
  }

  /** Each threshold is exclusive: 999 ns stays in nanoseconds, 1000 ns switches to microseconds, and so on up. */
  lemma UnitBoundaries()
    ensures UnitFor(999) == Nanoseconds && UnitFor(1_000) == Microseconds
    ensures UnitFor(999_999) == Microseconds && UnitFor(1_000_000) == Milliseconds
    ensures UnitFor(999_999_999) == Milliseconds && UnitFor(1_000_000_000) == Seconds
  {
  }
}
