/**
 * The process-wide profiler (`Profiler`): a registry of recorders keyed by
 * region, the save flag, and the reporting pass over every recorder.
 * `Profiler` keys its map by `const char*` pointer value; a `Region` stands for
 * such a pointer, so two regions with the same text at different addresses
 * are different recorders that report under the same name.
 */
module Registry {
  import Recorder
  import opened Samples
  import opened Baseline
  import opened Reporter

  datatype Region = Region(address: nat, text: string)

  datatype Profiler = Profiler(recorders: map<Region, Recorder.Recorder>, saveOn: bool)

  /** `Profiler::StartTracking`: create the region's recorder on first use, then start it. */
  function StartTracking(p: Profiler, region: Region, now: int): (p': Profiler)
    ensures p'.saveOn == p.saveOn
    ensures p'.recorders.Keys == p.recorders.Keys + {region}
    ensures region !in p.recorders ==>
      p'.recorders[region] == Recorder.Recorder(region.text, true, now, [])
    ensures region in p.recorders ==>
      p'.recorders[region] == Recorder.StartTracking(p.recorders[region], now)
    ensures p'.recorders[region].tracking
    ensures forall r :: r in p.recorders && r != region ==> p'.recorders[r] == p.recorders[r]
  {
    var rec := if region in p.recorders then p.recorders[region] else Recorder.New(region.text);
    p.(recorders := p.recorders[region := Recorder.StartTracking(rec, now)])
  }

  /** `Profiler::StopTracking`: stop the region's recorder; an unknown region is ignored and no recorder is created. */
  function StopTracking(p: Profiler, region: Region, now: int): (p': Profiler)
    ensures region !in p.recorders ==> p' == p
    ensures p'.saveOn == p.saveOn
    ensures p'.recorders.Keys == p.recorders.Keys
    ensures region in p.recorders ==>
      p'.recorders[region] == Recorder.StopTracking(p.recorders[region], now) && !p'.recorders[region].tracking
    ensures forall r :: r in p.recorders && r != region ==> p'.recorders[r] == p.recorders[r]
  {
    if region in p.recorders then
      p.(recorders := p.recorders[region := Recorder.StopTracking(p.recorders[region], now)])
    else p
  }

  /** `Profiler::SetSaveOn`: from now on reports write their baselines. */
  function SetSaveOn(p: Profiler): (p': Profiler)
    ensures p'.saveOn && p'.recorders == p.recorders
  {
    p.(saveOn := true)
  }

  /** Two stops in a row record at most one sample: the second stop changes nothing. */
  lemma StopTwice(p: Profiler, region: Region, t1: int, t2: int)
    ensures StopTracking(StopTracking(p, region, t1), region, t2) == StopTracking(p, region, t1)
  {
    if region in p.recorders {
      Recorder.StopIdempotent(p.recorders[region], t1, t2);
      var p1 := StopTracking(p, region, t1);
      assert p1.recorders[region := Recorder.StopTracking(p1.recorders[region], t2)] == p1.recorders;
    }
  }

  /** A second start keeps the first start time. */
  lemma StartTwice(p: Profiler, region: Region, t1: int, t2: int)
    ensures StartTracking(StartTracking(p, region, t1), region, t2) == StartTracking(p, region, t1)
  {
    var p1 := StartTracking(p, region, t1);
    assert p1.recorders[region := Recorder.StartTracking(p1.recorders[region], t2)] == p1.recorders;
  }

  /** Bracketing an unseen region once registers it with exactly one sample, the elapsed time. */
  lemma FirstCycle(p: Profiler, region: Region, t1: int, t2: int)
    requires region !in p.recorders
    ensures var p' := StopTracking(StartTracking(p, region, t1), region, t2);
      && region in p'.recorders
      && p'.recorders[region] == Recorder.Recorder(region.text, false, t1, [t2 - t1])
  {
  }

  /** The lines a reporting pass prints for the regions of `order`, counted without running it. */
  function TotalLength(recs: map<Region, Recorder.Recorder>, order: seq<Region>): nat
  {
    if order == [] then 0
    else
      var last := order[|order| - 1];
      TotalLength(recs, order[..|order| - 1]) + (if last in recs then ReportLength(|recs[last].samples|) else 0)
  }

  /** `order` lists every region of the profiler exactly once. */
  predicate EnumeratesOnce(p: Profiler, order: seq<Region>) {
    && (forall r :: r in p.recorders ==> r in order)
    && Listed(p.recorders, order)
    && Distinct(order)
  }

  /**
   * What a reporting pass does to one recorder: `std::sort` its samples in
   * place (the ascending permutation `Sort` describes) and nothing else.
   */
  predicate SortedCopy(before: Recorder.Recorder, after: Recorder.Recorder) {
    after == before.(samples := Sort(before.samples))
  }

  predicate AllIdle(p: Profiler) {
    forall r :: r in p.recorders ==> p.recorders[r].samples == []
  }

  /** What a reporting pass has produced so far: the lines, the store, and the recorders. */
  datatype Pass = Pass(lines: seq<Line>, store: Store, recorders: map<Region, Recorder.Recorder>)

  /** Every region of `order` has a recorder. */
  predicate Listed(recs: map<Region, Recorder.Recorder>, order: seq<Region>) {
    forall i :: 0 <= i < |order| ==> order[i] in recs
  }

  /**
   * The reporting pass over the regions of `order`, one `LogData` after the
   * other: each region reports against the store the previous ones left,
   * and its recorder is replaced by the one its report leaves behind.
   */
  function Report(recs: map<Region, Recorder.Recorder>, store: Store, saveOn: bool, order: seq<Region>): (out: Pass)
    requires Listed(recs, order)
    ensures out.recorders.Keys == recs.Keys
    ensures !saveOn ==> out.store == store
    decreases |order|
  {
    if order == [] then Pass([], store, recs)
    else
      var last := order[|order| - 1];
      var before := Report(recs, store, saveOn, order[..|order| - 1]);
      var report := LogRegion(before.recorders[last], before.store, saveOn);
      Pass(before.lines + report.lines, report.store, before.recorders[last := report.recorder])
  }

  /** A region the pass has not reached keeps its recorder. */
  lemma {:induction false} ReportUntouched(recs: map<Region, Recorder.Recorder>, store: Store, saveOn: bool, order: seq<Region>, r: Region)
    requires Listed(recs, order) && r in recs
    requires forall i :: 0 <= i < |order| ==> order[i] != r
    ensures Report(recs, store, saveOn, order).recorders[r] == recs[r]
    decreases |order|
  {
    if order != [] {
      ReportUntouched(recs, store, saveOn, order[..|order| - 1], r);
    }
  }

  predicate Distinct(order: seq<Region>) {
    forall i, j :: 0 <= i < j < |order| ==> order[i] != order[j]
  }

  /** The last region of a list without repeats is not in the prefix before it, so the pass over that prefix leaves it alone. */
  lemma LastFresh(recs: map<Region, Recorder.Recorder>, store: Store, saveOn: bool, order: seq<Region>)
    requires Listed(recs, order) && Distinct(order) && order != []
    ensures var n := |order| - 1;
      && Listed(recs, order[..n]) && Distinct(order[..n])
      && Report(recs, store, saveOn, order[..n]).recorders[order[n]] == recs[order[n]]
  {
    var n := |order| - 1;
    forall i | 0 <= i < n
      ensures order[..n][i] != order[n]
    {
    }
    ReportUntouched(recs, store, saveOn, order[..n], order[n]);
  }

  /** Each region the pass reaches, once, is left as a sorted copy of its recorder. */
  lemma {:induction false} ReportSorts(recs: map<Region, Recorder.Recorder>, store: Store, saveOn: bool, order: seq<Region>, i: nat)
    requires Listed(recs, order) && Distinct(order) && i < |order|
    ensures SortedCopy(recs[order[i]], Report(recs, store, saveOn, order).recorders[order[i]])
    decreases |order|
  {
    var n := |order| - 1;
    var prefix := order[..n];
    LastFresh(recs, store, saveOn, order);
    var before := Report(recs, store, saveOn, prefix);
    ReportLastRecorder(recs, store, saveOn, order, order[i]);
    if i < n {
      assert order[i] == prefix[i] && order[i] != order[n];
      ReportSorts(recs, store, saveOn, prefix, i);
    }
  }

  /** The pass sorts the samples of the last region it reports and leaves every other region as the pass over the prefix left it. */
  lemma ReportLastRecorder(recs: map<Region, Recorder.Recorder>, store: Store, saveOn: bool, order: seq<Region>, r: Region)
    requires Listed(recs, order) && order != [] && r in recs
    ensures Listed(recs, order[..|order| - 1])
    ensures var n := |order| - 1;
      var before := Report(recs, store, saveOn, order[..n]);
      var last := before.recorders[order[n]];
      Report(recs, store, saveOn, order).recorders[r]
        == if r == order[n] then last.(samples := Sort(last.samples)) else before.recorders[r]
  {
    var n := |order| - 1;
    assert Listed(recs, order[..n]) by {
      forall i | 0 <= i < n
        ensures order[..n][i] in recs
      {
        assert order[..n][i] == order[i];
      }
    }
    var before := Report(recs, store, saveOn, order[..n]);
    LogRegionSorts(before.recorders[order[n]], before.store, saveOn);
  }

  /** The pass prints exactly the lines counted by `TotalLength`. */
  lemma {:induction false} ReportPrintsTotal(recs: map<Region, Recorder.Recorder>, store: Store, saveOn: bool, order: seq<Region>)
    requires Listed(recs, order) && Distinct(order)
    ensures |Report(recs, store, saveOn, order).lines| == TotalLength(recs, order)
    decreases |order|
  {
    if order != [] {
      var n := |order| - 1;
      LastFresh(recs, store, saveOn, order);
      ReportPrintsTotal(recs, store, saveOn, order[..n]);
    }
  }

  /** When no region holds a sample, the pass prints nothing and leaves the store alone. */
  lemma {:induction false} ReportIdle(recs: map<Region, Recorder.Recorder>, store: Store, saveOn: bool, order: seq<Region>)
    requires Listed(recs, order) && Distinct(order)
    requires forall r :: r in recs ==> recs[r].samples == []
    ensures Report(recs, store, saveOn, order).lines == []
    ensures Report(recs, store, saveOn, order).store == store
    decreases |order|
  {
    if order != [] {
      var n := |order| - 1;
      LastFresh(recs, store, saveOn, order);
      ReportIdle(recs, store, saveOn, order[..n]);
    }
  }

  /** The pass over one more region extends the pass over the prefix. */
  lemma ReportStep(recs: map<Region, Recorder.Recorder>, store: Store, saveOn: bool, order: seq<Region>, i: nat)
    requires Listed(recs, order) && i < |order|
    ensures Listed(recs, order[..i]) && Listed(recs, order[..i + 1])
    ensures var before := Report(recs, store, saveOn, order[..i]);
      var report := LogRegion(before.recorders[order[i]], before.store, saveOn);
      Report(recs, store, saveOn, order[..i + 1])
        == Pass(before.lines + report.lines, report.store, before.recorders[order[i] := report.recorder])
  {
    assert order[..i + 1][..i] == order[..i];
  }

  /**
   * `Profiler::LogData`: report every recorder, in the order the hash map
   * enumerates them (given as `order`, which lists every region once).
   * Baselines are read whatever the save flag, but written only when it is
   * on. Regions without samples print nothing. Every recorder is left with
   * its samples sorted and otherwise unchanged.
   */
  method LogAll(p: Profiler, store: Store, order: seq<Region>) returns (lines: seq<Line>, store': Store, p': Profiler)
    requires EnumeratesOnce(p, order)
    ensures !p.saveOn ==> store' == store
    ensures p'.saveOn == p.saveOn && p'.recorders.Keys == p.recorders.Keys
    ensures forall r :: r in p.recorders ==> SortedCopy(p.recorders[r], p'.recorders[r])
    ensures |lines| == TotalLength(p.recorders, order)
    ensures AllIdle(p) ==> lines == [] && store' == store
    ensures var out := Report(p.recorders, store, p.saveOn, order);
      lines == out.lines && store' == out.store && p'.recorders == out.recorders
  {
    var out := RunReport(p.recorders, store, p.saveOn, order);
    lines, store' := out.lines, out.store;
    p' := p.(recorders := out.recorders);
    ReportPrintsTotal(p.recorders, store, p.saveOn, order);
    if AllIdle(p) {
      ReportIdle(p.recorders, store, p.saveOn, order);
    }
    forall r | r in p.recorders
      ensures SortedCopy(p.recorders[r], p'.recorders[r])
    {
      var j :| 0 <= j < |order| && order[j] == r;
      ReportSorts(p.recorders, store, p.saveOn, order, j);
    }
  }

  /** The pass as a loop over `order`, one region at a time. */
  method RunReport(recs: map<Region, Recorder.Recorder>, store: Store, saveOn: bool, order: seq<Region>) returns (out: Pass)
    requires Listed(recs, order)
    ensures out == Report(recs, store, saveOn, order)
  {
    out := Pass([], store, recs);
    var i := 0;
    while i < |order|
      invariant 0 <= i <= |order|
      invariant Listed(recs, order[..i])
      invariant out == Report(recs, store, saveOn, order[..i])
    {
      ReportStep(recs, store, saveOn, order, i);
      var report := LogRegion(out.recorders[order[i]], out.store, saveOn);
      out := Pass(out.lines + report.lines, report.store, out.recorders[order[i] := report.recorder]);
      i := i + 1;
    }
    assert order[..i] == order;
  }
}
