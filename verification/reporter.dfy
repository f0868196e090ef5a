/**
 * The per-region report of `ProfilerObject::LogData`: compare each metric
 * with its stored baseline, emit one line per metric, and write the current
 * value back as the new baseline. Text formatting (`setprecision(4)` and the
 * scaled floating-point display value) is not modelled: a line carries the
 * raw nanosecond value and the unit it is displayed in.
 */
module Reporter {
  import opened Wrappers
  import opened Decimal
  import opened Samples
  import opened Statistics
  import opened Baseline
  import Recorder

  /** The sign printed before a percentage: " -" for an improvement, " +" otherwise. */
  datatype Sign = Minus | Plus

  /**
   * The percentage, computed in `double`: the quotient by a zero baseline is
   * an infinity, or NaN when the current value is zero as well.
   */
  datatype Percent = Finite(value: real) | Infinity | NotANumber

  datatype Delta = Delta(sign: Sign, percent: Percent)

  function Abs(x: int): nat {
    if x < 0 then -x else x
  }

  /**
   * The comparison rule. Against a positive baseline the percentage is the
   * relative distance |current - baseline| / baseline, in percent, and never
   * negative. (Floating-point rounding is not modelled.)
   */
  function Compare(current: int, baseline: int): (d: Delta)
    ensures d.sign == Minus <==> current < baseline
    ensures baseline != 0 ==> d.percent.Finite?
    ensures baseline > 0 ==>
      && d.percent.value >= 0.0
      && d.percent.value * (baseline as real) == (Abs(current - baseline) as real) * 100.0
    ensures baseline == 0 ==> (d.percent == NotANumber <==> current == 0)
    ensures baseline == 0 && current != 0 ==> d.percent == Infinity
  {
    var sign := if current < baseline then Minus else Plus;
    if baseline == 0 then
      Delta(sign, if current == 0 then NotANumber else Infinity)
    else
      var q := (current as real) / (baseline as real);
      Delta(sign, Finite(if current < baseline then (1.0 - q) * 100.0 else (q - 1.0) * 100.0))
  }

  /** 90 against a baseline of 100 prints minus 10%; 120 against 100 prints plus 20%. */
  lemma CompareExamples()
    ensures Compare(90, 100) == Delta(Minus, Finite(10.0))
    ensures Compare(120, 100) == Delta(Plus, Finite(20.0))
  {
  }

  /** Against a negative baseline (a clock stepping backwards) the percentage can come out negative. */
  lemma NegativeBaselinePercent()
    ensures Compare(50, -100) == Delta(Plus, Finite(-150.0))
  {
  }

  /** One output line: the region header, or one metric with its optional comparison. */
  datatype Line =
    | Header(region: string)
    | Metric(metric: string, value: int, unit: Unit, delta: Option<Delta>)

  /** The (label, value) pairs reported for a region of `n` samples, in output order. */
  function Metrics(s: Summary, n: nat): (m: seq<(string, int)>)
    ensures |m| == if n >= TailThreshold then 6 else 4
    ensures forall i :: 0 <= i < |m| ==> m[i].0 == Labels[i]
  {
    [("Average", s.average), ("Median", s.median), ("Worst", s.worst), ("Best", s.best)]
    + (if n >= TailThreshold then [("Worst5%", s.worst5), ("Best5%", s.best5)] else [])
  }

  /** What reporting a list of metrics produces: lines, the keys looked up, and the store after writing. */
  datatype Emission = Emission(lines: seq<Line>, lookups: seq<string>, store: Store)

  /** The comparison of a metric against what `store` holds for it, if anything. */
  function Against(store: Store, name: string, metric: string, v: int): Option<Delta> {
    match RetrieveData(store, name, metric)
    case Some(text) => Some(Compare(v, Atol(text)))
    case None => None
  }

  /**
   * `printWithComparison` applied to each metric in turn: look the baseline
   * up, emit the line, then write the current value back. Each lookup sees
   * the writes of the metrics before it.
   */
  function Emit(name: string, metrics: seq<(string, int)>, unit: Unit, store: Store, saveOn: bool): (e: Emission)
    ensures |e.lines| == |metrics| && |e.lookups| == |metrics|
    ensures forall i :: 0 <= i < |metrics| ==>
      && e.lines[i].Metric?
      && e.lines[i].metric == metrics[i].0
      && e.lines[i].value == metrics[i].1
      && e.lines[i].unit == unit
      && e.lookups[i] == Key(name, metrics[i].0)
    ensures !saveOn ==> e.store == store
    ensures forall k :: (forall i :: 0 <= i < |metrics| ==> k != Key(name, metrics[i].0)) ==>
      (k in e.store <==> k in store) && (k in store ==> e.store[k] == store[k])
    decreases |metrics|
  {
    if metrics == [] then Emission([], [], store)
    else
      var (metric, v) := metrics[0];
      var line := Metric(metric, v, unit, Against(store, name, metric, v));
      var rest := Emit(name, metrics[1..], unit, InsertData(store, saveOn, name, metric, ToString(v)), saveOn);
      Emission([line] + rest.lines, [Key(name, metric)] + rest.lookups, rest.store)
  }

  predicate DistinctKeys(name: string, metrics: seq<(string, int)>) {
    forall i, j :: 0 <= i < j < |metrics| ==> Key(name, metrics[i].0) != Key(name, metrics[j].0)
  }

  /** Emitting a non-empty list: the first line, then the rest against the store after the first write. */
  lemma EmitFirst(name: string, metrics: seq<(string, int)>, unit: Unit, store: Store, saveOn: bool)
    requires |metrics| > 0
    ensures var e := Emit(name, metrics, unit, store, saveOn);
      var s1 := InsertData(store, saveOn, name, metrics[0].0, ToString(metrics[0].1));
      var rest := Emit(name, metrics[1..], unit, s1, saveOn);
      && e.lines[0].delta == Against(store, name, metrics[0].0, metrics[0].1)
      && e.lines[1..] == rest.lines
      && e.store == rest.store
  {
  }

  /** A write under one key leaves the comparison under every other key as it was. */
  lemma AgainstAfterInsert(store: Store, saveOn: bool, name: string, metric: string, text: string, other: string, v: int)
    requires Key(name, other) != Key(name, metric)
    ensures Against(InsertData(store, saveOn, name, metric, text), name, other, v) == Against(store, name, other, v)
  {
    InsertLeavesOthers(store, name, metric, text, name, other);
  }

  /**
   * When the region's keys are distinct, every metric is compared with the
   * baseline the store held BEFORE the report.
   */
  lemma {:induction false} EmitAgainstPrior(name: string, metrics: seq<(string, int)>, unit: Unit, store: Store, saveOn: bool)
    requires DistinctKeys(name, metrics)
    ensures var e := Emit(name, metrics, unit, store, saveOn);
      forall i :: 0 <= i < |metrics| ==> e.lines[i].delta == Against(store, name, metrics[i].0, metrics[i].1)
    decreases |metrics|
  {
    if metrics != [] {
      var (metric, v) := metrics[0];
      var s1 := InsertData(store, saveOn, name, metric, ToString(v));
      var tail := metrics[1..];
      assert DistinctKeys(name, tail);
      EmitAgainstPrior(name, tail, unit, s1, saveOn);
      EmitFirst(name, metrics, unit, store, saveOn);
      var e := Emit(name, metrics, unit, store, saveOn);
      var rest := Emit(name, tail, unit, s1, saveOn);
      forall i | 1 <= i < |metrics|
        ensures e.lines[i].delta == Against(store, name, metrics[i].0, metrics[i].1)
      {
        assert metrics[i] == tail[i - 1];
        assert e.lines[i] == rest.lines[i - 1];
        AgainstAfterInsert(store, saveOn, name, metric, ToString(v), metrics[i].0, metrics[i].1);
      }
    }
  }

  /**
   * With saving off the store never changes, so every metric is compared
   * with the baseline the store held before the report, whatever its key.
   */
  lemma {:induction false} EmitUnsaved(name: string, metrics: seq<(string, int)>, unit: Unit, store: Store)
    ensures var e := Emit(name, metrics, unit, store, false);
      forall i :: 0 <= i < |metrics| ==> e.lines[i].delta == Against(store, name, metrics[i].0, metrics[i].1)
    decreases |metrics|
  {
    if metrics != [] {
      EmitUnsaved(name, metrics[1..], unit, store);
      EmitFirst(name, metrics, unit, store, false);
      var e := Emit(name, metrics, unit, store, false);
      var rest := Emit(name, metrics[1..], unit, store, false);
      forall i | 1 <= i < |metrics|
        ensures e.lines[i].delta == Against(store, name, metrics[i].0, metrics[i].1)
      {
        assert metrics[i] == metrics[1..][i - 1];
        assert e.lines[i] == rest.lines[i - 1];
      }
    }
  }

  /**
   * When the region's keys are distinct and saving is on, afterwards every
   * key holds the decimal text of its current value.
   */
  lemma {:induction false} EmitSaves(name: string, metrics: seq<(string, int)>, unit: Unit, store: Store)
    requires DistinctKeys(name, metrics)
    ensures var e := Emit(name, metrics, unit, store, true);
      forall i :: 0 <= i < |metrics| ==>
        Key(name, metrics[i].0) in e.store && e.store[Key(name, metrics[i].0)] == ToString(metrics[i].1)
    decreases |metrics|
  {
    if metrics != [] {
      var (metric, v) := metrics[0];
      var s1 := InsertData(store, true, name, metric, ToString(v));
      var tail := metrics[1..];
      assert DistinctKeys(name, tail);
      EmitSaves(name, tail, unit, s1);
      EmitFirst(name, metrics, unit, store, true);
      var e := Emit(name, metrics, unit, store, true);
      var rest := Emit(name, tail, unit, s1, true);
      var k := Key(name, metric);
      assert k in rest.store && rest.store[k] == ToString(v) by {
        HeadKeyFresh(name, metrics, unit, store);
      }
      forall i | 1 <= i < |metrics|
        ensures Key(name, metrics[i].0) in e.store && e.store[Key(name, metrics[i].0)] == ToString(metrics[i].1)
      {
        assert metrics[i] == tail[i - 1];
      }
    }
  }

  /** The first metric's key is written by no later metric, so the rest of the report leaves it as written. */
  lemma HeadKeyFresh(name: string, metrics: seq<(string, int)>, unit: Unit, store: Store)
    requires DistinctKeys(name, metrics) && |metrics| > 0
    ensures var k := Key(name, metrics[0].0);
      var s1 := InsertData(store, true, name, metrics[0].0, ToString(metrics[0].1));
      var rest := Emit(name, metrics[1..], unit, s1, true);
      k in rest.store && rest.store[k] == ToString(metrics[0].1)
  {
    var tail := metrics[1..];
    var k := Key(name, metrics[0].0);
    forall j | 0 <= j < |tail|
      ensures k != Key(name, tail[j].0)
    {
      assert tail[j] == metrics[j + 1];
    }
  }

  /** What one region's report leaves behind. */
  datatype RegionReport = RegionReport(lines: seq<Line>, lookups: seq<string>, store: Store, recorder: Recorder.Recorder)

  /** The number of lines a region of `n` samples reports: none, or a header and four or six metrics. */
  function ReportLength(n: nat): nat {
    if n == 0 then 0 else if n >= TailThreshold then 7 else 5
  }

  /**
   * `ProfilerObject::LogData`. A region without samples reports nothing and
   * neither reads nor writes the store. Otherwise it prints a header, then
   * each metric in the unit chosen from the worst sample. Its samples are
   * left sorted, as `std::sort` sorts them in place.
   */
  function LogRegion(rec: Recorder.Recorder, store: Store, saveOn: bool): (out: RegionReport)
    ensures |rec.samples| == 0 ==> out == RegionReport([], [], store, rec)
    ensures |out.lines| == ReportLength(|rec.samples|)
    ensures |rec.samples| > 0 ==> out.lines[0] == Header(rec.name)
    ensures forall i :: 1 <= i < |out.lines| ==>
      && out.lines[i].Metric?
      && out.lines[i].metric == Labels[i - 1]
      && out.lines[i].unit == UnitFor(Summarize(rec.samples).worst)
      && out.lines[i].value == Metrics(Summarize(rec.samples), |rec.samples|)[i - 1].1
    ensures !saveOn ==> out.store == store
    ensures Sorted(out.recorder.samples) && multiset(out.recorder.samples) == multiset(rec.samples)
    ensures out.recorder.name == rec.name && out.recorder.tracking == rec.tracking
  {
    if |rec.samples| == 0 then RegionReport([], [], store, rec)
    else
      var stats := Summarize(rec.samples);
      var unit := UnitFor(stats.worst);
      var e := Emit(rec.name, Metrics(stats, |rec.samples|), unit, store, saveOn);
      RegionReport([Header(rec.name)] + e.lines, e.lookups, e.store, rec.(samples := Sort(rec.samples)))
  }

  /** Reporting a region leaves it holding its own samples in sorted order. */
  lemma LogRegionSorts(rec: Recorder.Recorder, store: Store, saveOn: bool)
    ensures LogRegion(rec, store, saveOn).recorder == rec.(samples := Sort(rec.samples))
  {
  }

  /**
   * With a region name short enough that no key is truncated, every metric
   * is compared with the baseline the store held before the report and,
   * with saving on, afterwards reads back exactly as its current value.
   */
  lemma LogRegionRoundTrip(rec: Recorder.Recorder, store: Store, saveOn: bool)
    requires |rec.samples| > 0
    requires |rec.name| + 7 <= KeyCapacity
    ensures var out := LogRegion(rec, store, saveOn);
      var m := Metrics(Summarize(rec.samples), |rec.samples|);
      forall i :: 1 <= i < |out.lines| ==>
        && out.lines[i].delta == Against(store, rec.name, Labels[i - 1], m[i - 1].1)
        && (saveOn ==> RetrieveData(out.store, rec.name, Labels[i - 1]).Some?)
        && (saveOn ==> Atol(RetrieveData(out.store, rec.name, Labels[i - 1]).value) == m[i - 1].1)
  {
    var stats := Summarize(rec.samples);
    var m := Metrics(stats, |rec.samples|);
    var unit := UnitFor(stats.worst);
    LogRegionUnfold(rec, store, saveOn);
    MetricKeysDistinct(rec.name, stats, |rec.samples|);
    EmitAgainstPrior(rec.name, m, unit, store, saveOn);
    var out := LogRegion(rec, store, saveOn);
    var e := Emit(rec.name, m, unit, store, saveOn);
    if saveOn {
      EmitSaves(rec.name, m, unit, store);
    }
    forall i | 1 <= i < |out.lines|
      ensures out.lines[i].delta == Against(store, rec.name, Labels[i - 1], m[i - 1].1)
      ensures saveOn ==> RetrieveData(out.store, rec.name, Labels[i - 1]).Some?
      ensures saveOn ==> Atol(RetrieveData(out.store, rec.name, Labels[i - 1]).value) == m[i - 1].1
    {
      assert out.lines[i] == e.lines[i - 1];
      AtolToString(m[i - 1].1);
    }
  }

  /** With saving off, whatever the name, every metric is compared with the baseline the store held before the report. */
  lemma LogRegionUnsaved(rec: Recorder.Recorder, store: Store)
    requires |rec.samples| > 0
    ensures var out := LogRegion(rec, store, false);
      var m := Metrics(Summarize(rec.samples), |rec.samples|);
      forall i :: 1 <= i < |out.lines| ==> out.lines[i].delta == Against(store, rec.name, Labels[i - 1], m[i - 1].1)
  {
    var stats := Summarize(rec.samples);
    var m := Metrics(stats, |rec.samples|);
    LogRegionUnfold(rec, store, false);
    EmitUnsaved(rec.name, m, UnitFor(stats.worst), store);
    var out := LogRegion(rec, store, false);
    var e := Emit(rec.name, m, UnitFor(stats.worst), store, false);
    forall i | 1 <= i < |out.lines|
      ensures out.lines[i].delta == Against(store, rec.name, Labels[i - 1], m[i - 1].1)
    {
      assert out.lines[i] == e.lines[i - 1];
    }
  }

  /** A region name short enough that no key is truncated gives each metric its own key. */
  lemma MetricKeysDistinct(name: string, stats: Summary, n: nat)
    requires |name| + 7 <= KeyCapacity
    ensures DistinctKeys(name, Metrics(stats, n))
  {
    var m := Metrics(stats, n);
    forall i, j | 0 <= i < j < |m|
      ensures Key(name, m[i].0) != Key(name, m[j].0)
    {
      if Key(name, m[i].0) == Key(name, m[j].0) {
        ShortKeysInjective(name, m[i].0, name, m[j].0);
      }
    }
  }

  lemma SortThree(a: int, b: int, c: int)
    requires c <= a <= b
    ensures Sort([a, b, c]) == [c, a, b]
  {
    ThreeArranged(a, b, c);
    SortIs([a, b, c], [c, a, b]);
  }

  lemma ThreeArranged(a: int, b: int, c: int)
    requires c <= a <= b
    ensures Sorted([c, a, b]) && multiset([a, b, c]) == multiset([c, a, b])
  {
    RotateThree(a, b, c);
  }

  lemma RotateThree(a: int, b: int, c: int)
    ensures multiset([a, b, c]) == multiset([c, a, b])
  {
    assert [a, b, c] == [a, b] + [c] && [c, a, b] == [c] + [a, b];
  }

  lemma SumThree(a: int, b: int, c: int)
    ensures Sum([a, b, c]) == a + b + c
  {
    var d := [a, b, c];
    assert d[1..] == [b, c];
    assert d[1..][1..] == [c];
    assert d[1..][1..][1..] == [];
    assert Sum(d[1..][1..]) == c;
    assert Sum(d[1..]) == b + c;
  }

  lemma MedianOfThree(d: seq<int>)
    requires |d| == 3
    ensures MedianOfSorted(d) == d[1]
  {
  }

  /** One millisecond, in nanoseconds. */
  const Millisecond: int := 1_000_000

  lemma ThreeSampleOrder()
    ensures var r := Summarize([20 * Millisecond, 30 * Millisecond, 10 * Millisecond]);
      r.worst == 30 * Millisecond && r.best == 10 * Millisecond && r.worst5 == 30 * Millisecond && r.best5 == 10 * Millisecond
  {
    SortThree(20 * Millisecond, 30 * Millisecond, 10 * Millisecond);
  }

  lemma ThreeSampleAverage()
    ensures Summarize([20 * Millisecond, 30 * Millisecond, 10 * Millisecond]).average == 20 * Millisecond
  {
    SortThree(20 * Millisecond, 30 * Millisecond, 10 * Millisecond);
    SumThree(10 * Millisecond, 20 * Millisecond, 30 * Millisecond);
  }

  lemma ThreeSampleMedian()
    ensures Summarize([20 * Millisecond, 30 * Millisecond, 10 * Millisecond]).median == 20 * Millisecond
  {
    SortThree(20 * Millisecond, 30 * Millisecond, 10 * Millisecond);
    MedianOfThree(Sort([20 * Millisecond, 30 * Millisecond, 10 * Millisecond]));
  }

  lemma ThreeSampleSummary()
    ensures Summarize([20 * Millisecond, 30 * Millisecond, 10 * Millisecond]) == Summary(20 * Millisecond, 20 * Millisecond, 30 * Millisecond, 10 * Millisecond, 30 * Millisecond, 10 * Millisecond)
  {
    ThreeSampleOrder();
    ThreeSampleAverage();
    ThreeSampleMedian();
  }

  lemma ThreeSampleLines()
    ensures var e := Emit("X", [("Average", 20 * Millisecond), ("Median", 20 * Millisecond), ("Worst", 30 * Millisecond), ("Best", 10 * Millisecond)], Milliseconds, map[], false);
      && e.lines == [
        Metric("Average", 20 * Millisecond, Milliseconds, None),
        Metric("Median", 20 * Millisecond, Milliseconds, None),
        Metric("Worst", 30 * Millisecond, Milliseconds, None),
        Metric("Best", 10 * Millisecond, Milliseconds, None)]
      && e.store == map[]
  {
    var m := [("Average", 20 * Millisecond), ("Median", 20 * Millisecond), ("Worst", 30 * Millisecond), ("Best", 10 * Millisecond)];
    var store: Store := map[];
    EmitUnsaved("X", m, Milliseconds, store);
    var e := Emit("X", m, Milliseconds, store, false);
    var expected := [
        Metric("Average", 20 * Millisecond, Milliseconds, None),
        Metric("Median", 20 * Millisecond, Milliseconds, None),
        Metric("Worst", 30 * Millisecond, Milliseconds, None),
        Metric("Best", 10 * Millisecond, Milliseconds, None)];
    forall i | 0 <= i < 4
      ensures e.lines[i] == expected[i]
    {
      assert Against(store, "X", m[i].0, m[i].1) == None;
    }
  }

  lemma ThreeSampleMetrics()
    ensures var stats := Summarize([20 * Millisecond, 30 * Millisecond, 10 * Millisecond]);
      && Metrics(stats, 3) == [("Average", 20 * Millisecond), ("Median", 20 * Millisecond), ("Worst", 30 * Millisecond), ("Best", 10 * Millisecond)]
      && UnitFor(stats.worst) == Milliseconds
  {
    ThreeSampleSummary();
  }

  lemma LogRegionUnfold(rec: Recorder.Recorder, store: Store, saveOn: bool)
    requires |rec.samples| > 0
    ensures var stats := Summarize(rec.samples);
      var e := Emit(rec.name, Metrics(stats, |rec.samples|), UnitFor(stats.worst), store, saveOn);
      && LogRegion(rec, store, saveOn).lines == [Header(rec.name)] + e.lines
      && LogRegion(rec, store, saveOn).store == e.store
  {
  }

  /**
   * Three samples of 20 ms, 30 ms and 10 ms for region "X",
   * saving off, no baselines: average and median 20 ms, worst 30 ms, best
   * 10 ms, all in milliseconds, no deltas, no tail metrics, store untouched.
   */
  lemma ThreeSampleReport()
    ensures var rec := Recorder.Recorder("X", false, 0, [20 * Millisecond, 30 * Millisecond, 10 * Millisecond]);
      && LogRegion(rec, map[], false).lines == [
        Header("X"),
        Metric("Average", 20 * Millisecond, Milliseconds, None),
        Metric("Median", 20 * Millisecond, Milliseconds, None),
        Metric("Worst", 30 * Millisecond, Milliseconds, None),
        Metric("Best", 10 * Millisecond, Milliseconds, None)]
      && LogRegion(rec, map[], false).store == map[]
  {
    var s := [20 * Millisecond, 30 * Millisecond, 10 * Millisecond];
    var rec := Recorder.Recorder("X", false, 0, s);
    LogRegionUnfold(rec, map[], false);
    ThreeSampleMetrics();
    ThreeSampleLines();
    var m := [("Average", 20 * Millisecond), ("Median", 20 * Millisecond), ("Worst", 30 * Millisecond), ("Best", 10 * Millisecond)];
    var e := Emit("X", m, Milliseconds, map[], false);
    assert LogRegion(rec, map[], false).lines == [Header("X")] + e.lines;
    ConsFour(Header("X"), e.lines);
  }

  lemma ConsFour<T>(h: T, t: seq<T>)
    requires |t| == 4
    ensures [h] + t == [h, t[0], t[1], t[2], t[3]]
  {
  }
}
