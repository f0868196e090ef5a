/**
 * The per-region sample recorder (`ProfilerObject`): a two-state machine,
 * idle or tracking, that appends one duration per completed start/stop
 * cycle. The clock is not modelled: every transition receives "now" as a
 * nanosecond count.
 */
module Recorder {

  /**
   * `start` is meaningful only while `tracking`; `samples` are in the order
   * they were recorded.
   */
  datatype Recorder = Recorder(name: string, tracking: bool, start: int, samples: seq<int>)

  /** A fresh recorder for a region: idle, with no samples. */
  function New(name: string): (r: Recorder)
    ensures r.name == name && !r.tracking && r.samples == []
  {
    Recorder(name, false, 0, [])
  }

  /** Begins a measurement unless one is already running; a second start keeps the first start time. */
  function StartTracking(r: Recorder, now: int): (r': Recorder)
    ensures r'.tracking
    ensures r'.name == r.name && r'.samples == r.samples
    ensures r.tracking ==> r'.start == r.start
    ensures !r.tracking ==> r'.start == now
  {
    if !r.tracking then r.(start := now, tracking := true) else r
  }

  /** Ends a running measurement by appending its duration; without one it does nothing. */
  function StopTracking(r: Recorder, now: int): (r': Recorder)
    ensures !r'.tracking
    ensures r'.name == r.name
    ensures |r'.samples| == |r.samples| + (if r.tracking then 1 else 0)
    ensures r'.samples[..|r.samples|] == r.samples
    ensures r.tracking ==> r'.samples[|r.samples|] == now - r.start
    ensures !r.tracking ==> r' == r
  {
    if r.tracking then r.(samples := r.samples + [now - r.start], tracking := false) else r
  }

  /** Starting twice is starting once: the later start time is ignored. */
  lemma StartIdempotent(r: Recorder, t1: int, t2: int)
    ensures StartTracking(StartTracking(r, t1), t2) == StartTracking(r, t1)
  {
  }

  /** Stopping twice records one sample: the second stop is a no-op. */
  lemma StopIdempotent(r: Recorder, t1: int, t2: int)
    ensures StopTracking(StopTracking(r, t1), t2) == StopTracking(r, t1)
    ensures |StopTracking(StopTracking(r, t1), t2).samples| <= |r.samples| + 1
  {
  }

  /** One start/stop pair, as a caller brackets a region. */
  datatype Cycle = Cycle(startAt: int, stopAt: int)

  function RunCycles(r: Recorder, cycles: seq<Cycle>): Recorder
    decreases |cycles|
  {
    if cycles == [] then r
    else RunCycles(StopTracking(StartTracking(r, cycles[0].startAt), cycles[0].stopAt), cycles[1..])
  }

  /** The durations a sequence of cycles should produce, one per cycle. */
  function Durations(cycles: seq<Cycle>): (d: seq<int>)
    ensures |d| == |cycles|
  {
    seq(|cycles|, i requires 0 <= i < |cycles| => cycles[i].stopAt - cycles[i].startAt)
  }

  /**
   * From the idle state, a run of bracketed cycles appends exactly one
   * sample per cycle, each the stop time minus the start time, in order.
   */
  lemma {:induction false} RunCyclesRecords(r: Recorder, cycles: seq<Cycle>)
    requires !r.tracking
    ensures !RunCycles(r, cycles).tracking
    ensures RunCycles(r, cycles).samples == r.samples + Durations(cycles)
    ensures RunCycles(r, cycles).name == r.name
    decreases |cycles|
  {
    if cycles != [] {
      var r1 := StopTracking(StartTracking(r, cycles[0].startAt), cycles[0].stopAt);
      RunCyclesRecords(r1, cycles[1..]);
      assert Durations(cycles) == [cycles[0].stopAt - cycles[0].startAt] + Durations(cycles[1..]);
    }
  }
}
