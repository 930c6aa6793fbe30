/** Progress reporting for the preprocessing pipeline: the per-step callback
    that turns a fraction of one step into an overall percentage, and the
    aggregator that keeps one timing record per pipeline step.

    Clock readings are integer milliseconds supplied by the caller, so
    `int((t1 - t0) * 1000)` becomes `t1 - t0`. */
module Progress {
  import opened Wrappers
  import opened Values

  /** One progress notification. */
  datatype ProgressInfo = ProgressInfo(
    step: string,
    percent: real,
    message: string,
    stepIndex: int,
    totalSteps: int,
    elapsedMs: int)

  // ------------------------------------------------------------------
  // overall percentage
  // ------------------------------------------------------------------

  /** The share of the whole pipeline one step stands for. */
  function Contribution(totalSteps: int): (c: real)
    ensures c > 0.0
    ensures totalSteps > 0 ==> c * totalSteps as real == 1.0
    ensures totalSteps <= 0 ==> c == 1.0
  {
    if totalSteps > 0 then 1.0 / totalSteps as real else 1.0
  }

  /** `(step_index + percent) * contribution * 100`, before clamping. */
  function RawPercent(stepIndex: int, totalSteps: int, fraction: real): real {
    (stepIndex as real + fraction) * Contribution(totalSteps) * 100.0
  }

  /** `min(100, max(0, (step_index + percent) * contribution * 100))`. */
  function OverallPercent(stepIndex: int, totalSteps: int, fraction: real): (p: real)
    ensures 0.0 <= p <= 100.0
  {
    var raw := RawPercent(stepIndex, totalSteps, fraction);
    if raw < 0.0 then 0.0 else if raw > 100.0 then 100.0 else raw
  }

  /** Inside the pipeline (a valid index and a fraction in [0, 1]) the
      clamp never bites: the percentage is exactly the completed share. */
  lemma OverallPercentExact(stepIndex: int, totalSteps: int, fraction: real)
    requires 0 <= stepIndex < totalSteps && 0.0 <= fraction <= 1.0
    ensures OverallPercent(stepIndex, totalSteps, fraction) * totalSteps as real
         == (stepIndex as real + fraction) * 100.0
  {
    var c := Contribution(totalSteps);
    var n := totalSteps as real;
    var a := stepIndex as real + fraction;
    assert 0.0 <= a <= n;
    assert a * c * 100.0 * n == a * 100.0 * (c * n);
    assert 0.0 <= a * c by { assert c > 0.0; }
    assert a * c <= n * c by { assert c > 0.0; }
    assert a * c * 100.0 <= 100.0;
  }

  /** For a fixed step, the overall percentage never decreases as the
      fraction inside the step grows. */
  lemma OverallPercentMonotone(stepIndex: int, totalSteps: int, f1: real, f2: real)
    requires f1 <= f2
    ensures OverallPercent(stepIndex, totalSteps, f1) <= OverallPercent(stepIndex, totalSteps, f2)
  {
    RawMonotone(stepIndex, stepIndex, totalSteps, f1, f2);
  }

  /** A later point in the pipeline never has a smaller raw percentage. */
  lemma RawMonotone(i: int, j: int, totalSteps: int, f1: real, f2: real)
    requires i as real + f1 <= j as real + f2
    ensures RawPercent(i, totalSteps, f1) <= RawPercent(j, totalSteps, f2)
  {
    var c := Contribution(totalSteps);
    var a1 := i as real + f1;
    var a2 := j as real + f2;
    assert a1 * c <= a2 * c;
  }

  /** Finishing step i is the same percentage as starting step i + 1. */
  lemma StepBoundary(stepIndex: int, totalSteps: int)
    ensures OverallPercent(stepIndex, totalSteps, 1.0) == OverallPercent(stepIndex + 1, totalSteps, 0.0)
  {
    assert stepIndex as real + 1.0 == (stepIndex + 1) as real + 0.0;
  }

  /** Any report of an earlier step is at most any report of a later one,
      when reports stay within [0, 1]. */
  lemma OverallPercentAcrossSteps(i: int, j: int, totalSteps: int, f1: real, f2: real)
    requires i < j && f1 <= 1.0 && 0.0 <= f2
    ensures OverallPercent(i, totalSteps, f1) <= OverallPercent(j, totalSteps, f2)
  {
    assert i as real + f1 <= j as real + f2;
    RawMonotone(i, j, totalSteps, f1, f2);
  }

  /** The last step reporting completion puts the pipeline at 100. */
  lemma LastStepComplete(totalSteps: int)
    requires totalSteps > 0
    ensures OverallPercent(totalSteps - 1, totalSteps, 1.0) == 100.0
  {
    OverallPercentExact(totalSteps - 1, totalSteps, 1.0);
  }

  // ------------------------------------------------------------------
  // per-step callback
  // ------------------------------------------------------------------

  /** `ProgressCallback`: the step it reports for, the clock reading at its
      creation, whether an `on_progress` listener is attached, and the
      history of every report made through it. */
  datatype Callback = Callback(
    stepName: string,
    stepIndex: int,
    totalSteps: int,
    startTime: int,
    listening: bool,
    history: seq<ProgressInfo>)

  /** `create_progress_callback` at clock reading `now`. */
  function NewCallback(stepName: string, stepIndex: int, totalSteps: int, listening: bool, now: int): (cb: Callback)
    ensures cb.history == [] && cb.startTime == now
    ensures cb.stepName == stepName && cb.stepIndex == stepIndex && cb.totalSteps == totalSteps
    ensures cb.listening == listening
  {
    Callback(stepName, stepIndex, totalSteps, now, listening, [])
  }

  /** What one call of the callback produces: the callback with its grown
      history, and what reached the listener (nothing when none is set). */
  datatype Reported = Reported(callback: Callback, forwarded: seq<ProgressInfo>)

  /** `ProgressCallback.__call__(percent, message)` at clock reading `now`. */
  function Report(cb: Callback, fraction: real, message: string, now: int): (r: Reported)
    ensures |r.callback.history| == |cb.history| + 1
    ensures r.callback.history[..|cb.history|] == cb.history
    ensures r.callback == cb.(history := r.callback.history)
    ensures
      var info := r.callback.history[|cb.history|];
      info.step == cb.stepName && info.message == message &&
      info.stepIndex == cb.stepIndex && info.totalSteps == cb.totalSteps &&
      info.elapsedMs == now - cb.startTime &&
      info.percent == OverallPercent(cb.stepIndex, cb.totalSteps, fraction)
    ensures cb.listening ==> r.forwarded == [r.callback.history[|cb.history|]]
    ensures !cb.listening ==> r.forwarded == []
  {
    var info := ProgressInfo(cb.stepName, OverallPercent(cb.stepIndex, cb.totalSteps, fraction),
      message, cb.stepIndex, cb.totalSteps, now - cb.startTime);
    Reported(cb.(history := cb.history + [info]), if cb.listening then [info] else [])
  }

  /** `get_history`. A value-level model has no aliasing, so the copy the
      source takes is the history itself. */
  function History(cb: Callback): (h: seq<ProgressInfo>)
    ensures |h| == |cb.history|
    ensures forall i :: 0 <= i < |h| ==> h[i] == cb.history[i]
  {
    cb.history
  }

  /** One report per call: n calls leave n more history entries, the old
      ones untouched, and change nothing but the history. */
  lemma {:induction false} HistoryGrowsByOne(cb: Callback, fractions: seq<real>, now: int)
    ensures |ReportAll(cb, fractions, now).history| == |cb.history| + |fractions|
    ensures ReportAll(cb, fractions, now).history[..|cb.history|] == cb.history
    ensures ReportAll(cb, fractions, now) == cb.(history := ReportAll(cb, fractions, now).history)
    decreases |fractions|
  {
    if |fractions| > 0 {
      var next := Report(cb, fractions[0], "", now).callback;
      HistoryGrowsByOne(next, fractions[1..], now);
      assert ReportAll(cb, fractions, now) == ReportAll(next, fractions[1..], now);
      assert next.history[..|cb.history|] == cb.history;
      assert ReportAll(cb, fractions, now).history[..|next.history|] == next.history;
      assert ReportAll(cb, fractions, now).history[..|cb.history|]
          == ReportAll(cb, fractions, now).history[..|next.history|][..|cb.history|];
    }
  }

  /** The k-th new entry is the k-th report: this callback's step, the
      time since its creation, and the overall percent of the k-th
      fraction. */
  lemma {:induction false} ReportAllEntries(cb: Callback, fractions: seq<real>, now: int, k: nat)
    requires k < |fractions|
    ensures |ReportAll(cb, fractions, now).history| == |cb.history| + |fractions|
    ensures
      var info := ReportAll(cb, fractions, now).history[|cb.history| + k];
      info.step == cb.stepName && info.elapsedMs == now - cb.startTime &&
      info.percent == OverallPercent(cb.stepIndex, cb.totalSteps, fractions[k])
    decreases |fractions|
  {
    HistoryGrowsByOne(cb, fractions, now);
    var next := Report(cb, fractions[0], "", now).callback;
    var h := ReportAll(next, fractions[1..], now).history;
    HistoryGrowsByOne(next, fractions[1..], now);
    if k == 0 {
      assert h[|cb.history|] == h[..|next.history|][|cb.history|];
    } else {
      ReportAllEntries(next, fractions[1..], now, k - 1);
      assert fractions[1..][k - 1] == fractions[k];
    }
  }

  /** `get_history` returns a copy: a history taken earlier is a prefix of
      every history taken after further reports, and stays as it was. */
  lemma HistorySnapshotPrefix(cb: Callback, fractions: seq<real>, now: int)
    ensures |History(ReportAll(cb, fractions, now))| == |History(cb)| + |fractions|
    ensures History(cb) == History(ReportAll(cb, fractions, now))[..|History(cb)|]
  {
    HistoryGrowsByOne(cb, fractions, now);
  }

  /** A run of reports at one clock reading. */
  function ReportAll(cb: Callback, fractions: seq<real>, now: int): Callback
    decreases |fractions|
  {
    if |fractions| == 0 then cb
    else ReportAll(Report(cb, fractions[0], "", now).callback, fractions[1..], now)
  }

  // ------------------------------------------------------------------
  // aggregator
  // ------------------------------------------------------------------

  /** One entry of `ProgressAggregator.steps`. `None` stands for Python's
      `None` in the fields a completion fills in. The step is whatever
      value the executor was given as the step's "op". */
  datatype StepRecord = StepRecord(
    step: Value,
    index: int,
    total: int,
    startTime: int,
    endTime: Option<int>,
    durationMs: Option<int>,
    success: Option<bool>,
    error: Option<string>)
  {
    /** Completed: `step_completed` has filled in the outcome. */
    predicate Closed() {
      endTime.Some? && durationMs.Some? && success.Some?
    }
  }

  datatype Aggregator = Aggregator(
    steps: seq<StepRecord>,
    startTime: Option<int>,
    endTime: Option<int>,
    currentStep: Option<Value>,
    currentPercent: real)

  /** `ProgressAggregator()`. */
  function NewAggregator(): (a: Aggregator)
    ensures a.steps == [] && a.startTime.None? && a.endTime.None? && a.currentStep.None?
    ensures a.currentPercent == 0.0
  {
    Aggregator([], None, None, None, 0.0)
  }

  /** `start`: stamps the start time and drops the records. The end time,
      current step and current percent of an earlier run survive. */
  function Start(a: Aggregator, now: int): (r: Aggregator)
    ensures r.steps == [] && r.startTime == Some(now)
    ensures r.endTime == a.endTime && r.currentStep == a.currentStep && r.currentPercent == a.currentPercent
  {
    a.(startTime := Some(now), steps := [])
  }

  /** `step_started`: one new open record at the end. */
  function StepStarted(a: Aggregator, name: Value, index: int, total: int, now: int): (r: Aggregator)
    ensures |r.steps| == |a.steps| + 1 && r.steps[..|a.steps|] == a.steps
    ensures
      var s := r.steps[|a.steps|];
      s.step == name && s.index == index && s.total == total && s.startTime == now &&
      s.endTime.None? && s.durationMs.None? && s.success.None? && s.error.None?
    ensures r.currentStep == Some(name)
    ensures r.startTime == a.startTime && r.endTime == a.endTime && r.currentPercent == a.currentPercent
  {
    a.(currentStep := Some(name),
       steps := a.steps + [StepRecord(name, index, total, now, None, None, None, None)])
  }

  /** `step_completed(success, error)`: fills in the last record only, and
      does nothing when there is none. */
  function StepCompleted(a: Aggregator, success: bool, error: Option<string>, now: int): (r: Aggregator)
    ensures |a.steps| == 0 ==> r == a
    ensures |r.steps| == |a.steps|
    ensures forall i :: 0 <= i < |a.steps| - 1 ==> r.steps[i] == a.steps[i]
    ensures |a.steps| > 0 ==>
      var old_ := a.steps[|a.steps| - 1];
      var s := r.steps[|a.steps| - 1];
      s.Closed() &&
      s.step == old_.step && s.index == old_.index && s.total == old_.total && s.startTime == old_.startTime &&
      s.endTime == Some(now) && s.durationMs == Some(now - old_.startTime) &&
      s.success == Some(success) && s.error == error
    ensures r.startTime == a.startTime && r.endTime == a.endTime
    ensures r.currentStep == a.currentStep && r.currentPercent == a.currentPercent
  {
    if |a.steps| == 0 then a
    else
      var last := a.steps[|a.steps| - 1];
      var closed := last.(endTime := Some(now), durationMs := Some(now - last.startTime),
                          success := Some(success), error := error);
      a.(steps := a.steps[..|a.steps| - 1] + [closed])
  }

  /** `update_progress(info)`: tracks the latest notification and nothing else. */
  function UpdateProgress(a: Aggregator, info: ProgressInfo): (r: Aggregator)
    ensures r.steps == a.steps && r.startTime == a.startTime && r.endTime == a.endTime
    ensures r.currentStep == Some(Str(info.step)) && r.currentPercent == info.percent
  {
    a.(currentStep := Some(Str(info.step)), currentPercent := info.percent)
  }

  /** `finish`: stamps the end time. */
  function Finish(a: Aggregator, now: int): (r: Aggregator)
    ensures r == a.(endTime := Some(now))
    ensures r.steps == a.steps && r.endTime == Some(now)
  {
    a.(endTime := Some(now))
  }

  /** One entry of the summary's `steps`. */
  datatype StepSummary = StepSummary(step: Value, durationMs: Option<int>, success: Option<bool>, error: Option<string>)

  datatype Summary = Summary(totalDurationMs: int, steps: seq<StepSummary>, finalPercent: real)

  /** A Python timestamp in a truth test: `None` and `0.0` are false. */
  predicate Stamped(t: Option<int>) {
    t.Some? && t.value != 0
  }

  /** `get_summary`. */
  function GetSummary(a: Aggregator): (r: Summary)
    ensures !(Stamped(a.startTime) && Stamped(a.endTime)) ==> r.totalDurationMs == 0
    ensures Stamped(a.startTime) && Stamped(a.endTime) ==>
      r.totalDurationMs + a.startTime.value == a.endTime.value
    ensures |r.steps| == |a.steps|
    ensures forall i :: 0 <= i < |a.steps| ==>
      r.steps[i].step == a.steps[i].step && r.steps[i].durationMs == a.steps[i].durationMs &&
      r.steps[i].success == a.steps[i].success && r.steps[i].error == a.steps[i].error
    ensures r.finalPercent == a.currentPercent
  {
    var total := if Stamped(a.startTime) && Stamped(a.endTime) then a.endTime.value - a.startTime.value else 0;
    Summary(total,
      seq(|a.steps|, i requires 0 <= i < |a.steps| =>
        StepSummary(a.steps[i].step, a.steps[i].durationMs, a.steps[i].success, a.steps[i].error)),
      a.currentPercent)
  }

  // ------------------------------------------------------------------
  // records are append-only
  // ------------------------------------------------------------------

  /** The aggregator calls other than `start`. */
  datatype Event =
    | Began(name: Value, index: int, total: int)
    | Ended(ok: bool, error: Option<string>)
    | Progressed(info: ProgressInfo)
    | Finished

  function Apply(a: Aggregator, e: Event, now: int): Aggregator {
    match e
    case Began(name, index, total) => StepStarted(a, name, index, total, now)
    case Ended(ok, error) => StepCompleted(a, ok, error, now)
    case Progressed(info) => UpdateProgress(a, info)
    case Finished => Finish(a, now)
  }

  function Replay(a: Aggregator, events: seq<Event>, now: int): Aggregator
    decreases |events|
  {
    if |events| == 0 then a else Replay(Apply(a, events[0], now), events[1..], now)
  }

  /** What a record says about its step: the fields set when it is opened. */
  predicate SameStep(x: StepRecord, y: StepRecord) {
    x.step == y.step && x.index == y.index && x.total == y.total && x.startTime == y.startTime
  }

  /** Between two `start`s, records are never removed or reordered: every
      record keeps its position and its step, and a closed one stays as it is. */
  lemma {:induction false} RecordsAppendOnly(a: Aggregator, events: seq<Event>, now: int)
    ensures |Replay(a, events, now).steps| >= |a.steps|
    ensures forall i :: 0 <= i < |a.steps| ==> SameStep(Replay(a, events, now).steps[i], a.steps[i])
    ensures forall i :: 0 <= i < |a.steps| && a.steps[i].Closed() && i < |a.steps| - 1 ==>
      Replay(a, events, now).steps[i] == a.steps[i]
    decreases |events|
  {
    if |events| > 0 {
      var b := Apply(a, events[0], now);
      assert |b.steps| >= |a.steps|;
      assert forall i :: 0 <= i < |a.steps| ==> SameStep(b.steps[i], a.steps[i]);
      assert forall i :: 0 <= i < |a.steps| - 1 ==> b.steps[i] == a.steps[i];
      RecordsAppendOnly(b, events[1..], now);
    }
  }
}
