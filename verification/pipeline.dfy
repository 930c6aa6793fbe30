/** The preprocessing pipeline executor: filters the enabled steps, looks
    each one up in the operation registry, applies the preview-mode
    parameter rewrite, runs it, and either stops at the first failure or
    carries on, keeping the aggregator's step records as it goes.

    The executor is generic over the image type. The operations are an
    oracle: for a name, an image and parameters, what the operation returns
    or raises, the progress reports it makes on the way, and how many
    milliseconds it takes. Bookkeeping takes no time on the model's clock. */
module Pipeline {
  import opened Wrappers
  import opened Values
  import opened Registry
  import opened Progress

  // ------------------------------------------------------------------
  // steps
  // ------------------------------------------------------------------

  /** `PipelineStep`. The dataclass does not check its field types, so
      "op" and "params" hold whatever the caller sent. */
  datatype Step = Step(op: Value, params: Value, enabled: Value)

  /** A raw step as the caller passes it: a dictionary. */
  type RawStep = map<string, Value>

  /** `s.get("enabled", True)` in a truth test. */
  predicate Enabled(s: RawStep) {
    Truthy(Get(s, "enabled", Bool(true)))
  }

  /** The `PipelineStep` built from an enabled raw step: "op" defaults to
      the empty name and "params" to no parameters. */
  function ToStep(s: RawStep): (r: Step)
    ensures "op" !in s ==> r.op == Str("")
    ensures "op" in s ==> r.op == s["op"]
    ensures "params" !in s ==> r.params == Dict(map[])
    ensures "params" in s ==> r.params == s["params"]
  {
    Step(Get(s, "op", Str("")), Get(s, "params", Dict(map[])), Get(s, "enabled", Bool(true)))
  }

  /** Positions of the enabled raw steps, in input order. */
  function EnabledPositions(raw: seq<RawStep>, from: nat): (pos: seq<nat>)
    requires from <= |raw|
    ensures forall k :: 0 <= k < |pos| ==> from <= pos[k] < |raw| && Enabled(raw[pos[k]])
    ensures forall k, l :: 0 <= k < l < |pos| ==> pos[k] < pos[l]
    ensures forall j :: from <= j < |raw| && Enabled(raw[j]) ==> j in pos
    decreases |raw| - from
  {
    if from == |raw| then []
    else
      var rest := EnabledPositions(raw, from + 1);
      if Enabled(raw[from]) then [from] + rest else rest
  }

  /** The active steps (the list comprehension that opens `execute`). */
  function ActiveSteps(raw: seq<RawStep>): (r: seq<Step>)
    ensures var pos := EnabledPositions(raw, 0);
      |r| == |pos| && forall k :: 0 <= k < |r| ==> r[k] == ToStep(raw[pos[k]])
  {
    var pos := EnabledPositions(raw, 0);
    seq(|pos|, k requires 0 <= k < |pos| => ToStep(raw[pos[k]]))
  }

  // ------------------------------------------------------------------
  // preview mode
  // ------------------------------------------------------------------

  /** `min(v, 10)`: the first argument unless `10 < v`; raises for a value
      that does not compare with an int. */
  function MinTen(v: Value): (r: Result<Value, string>)
    ensures AsNumber(v).None? <==> r.Failure?
    ensures r.Success? ==> AsNumber(r.value).Some? && AsNumber(r.value).value <= 10.0
    ensures r.Success? ==> AsNumber(r.value).value == if AsNumber(v).value <= 10.0 then AsNumber(v).value else 10.0
    ensures r.Success? && AsNumber(v).value <= 10.0 ==> r.value == v
  {
    match v
    case Int(i) => Success(if 10 < i then Int(10) else v)
    case Float(x) => Success(if 10.0 < x then Int(10) else v)
    case Bool(_) => Success(v)
    case _ => Failure("'<' not supported between instances of 'int' and '" + TypeName(v) + "'")
  }

  /** The parameters a denoise step is rewritten for in preview mode. */
  predicate PreviewRewrites(op: string, params: Value) {
    op == "denoise" && params.Dict? && "method" in params.fields && params.fields["method"] == Str("nlm")
  }

  /** `_adjust_params_for_preview` on a copy of the step's parameters: NLM
      denoising becomes bilateral with a strength of at most 10. Only a
      denoise step looks inside, and `.get` raises on a list. */
  function AdjustForPreview(op: string, params: Value): (r: Result<Value, string>)
    ensures op != "denoise" ==> r == Success(params)
    ensures op == "denoise" && !params.Dict? ==> r.Failure?
    ensures params.Dict? && !PreviewRewrites(op, params) ==> r == Success(params)
    ensures PreviewRewrites(op, params) ==>
      (r.Failure? <==> "strength" in params.fields && AsNumber(params.fields["strength"]).None?)
    ensures PreviewRewrites(op, params) && r.Success? ==>
      r.value.Dict? && r.value.fields.Keys == params.fields.Keys + {"strength"} &&
      r.value.fields["method"] == Str("bilateral") &&
      AsNumber(r.value.fields["strength"]).Some? && AsNumber(r.value.fields["strength"]).value <= 10.0 &&
      ("strength" in params.fields ==> r.value.fields["strength"] == MinTen(params.fields["strength"]).value) &&
      ("strength" !in params.fields ==> r.value.fields["strength"] == Int(10)) &&
      forall key :: key in params.fields && key != "method" && key != "strength" ==>
        r.value.fields[key] == params.fields[key]
  {
    if op != "denoise" then Success(params)
    else if !params.Dict? then Failure("'" + TypeName(params) + "' object has no attribute 'get'")
    else if PreviewRewrites(op, params) then
      match MinTen(Get(params.fields, "strength", Int(10)))
      case Failure(e) => Failure(e)
      case Success(s) => Success(Dict(params.fields["method" := Str("bilateral")]["strength" := s]))
    else Success(params)
  }

  /** Only lists and dicts have the `.copy()` the executor calls on a
      step's parameters. */
  predicate Copyable(params: Value) {
    params.Dict? || params.List?
  }

  /** The parameters an operation receives: a copy of the step's own,
      rewritten when previewing. */
  function Prepare(preview: bool, op: string, params: Value): Result<Value, string> {
    if !Copyable(params) then Failure("'" + TypeName(params) + "' object has no attribute 'copy'")
    else if preview then AdjustForPreview(op, params)
    else Success(params)
  }

  // ------------------------------------------------------------------
  // the operation oracle
  // ------------------------------------------------------------------

  /** One call of the progress callback from inside an operation: the
      fraction of the step, the message, and when it was made, in
      milliseconds after the operation started. */
  datatype OpReport = OpReport(fraction: real, message: string, atMs: nat)

  /** What an operation does when called: returns an image or raises with
      a message, after making `reports` and taking `costMs`. */
  datatype StepRun<I> = StepRun(result: Result<I, string>, reports: seq<OpReport>, costMs: nat)

  datatype Env<!I> = Env(
    op: (string, I, Value) -> StepRun<I>,
    continueOnError: bool,
    preview: bool,
    listening: bool)

  /** The TypeError the registry lookup raises for a list or dict op. */
  function UnhashableError(op: Value): string {
    "unhashable type: '" + TypeName(op) + "'"
  }

  /** What one step does to an image, bookkeeping aside: an unhashable op
      raises (and the executor with it), unknown names, parameters without
      `.copy()` and failed preview rewrites fail, otherwise the operation
      decides. */
  function Outcome<I>(env: Env<I>, s: Step, image: I): (r: Result<I, string>)
    ensures !Hashable(s.op) ==> r == Failure(UnhashableError(s.op))
    ensures Hashable(s.op) && !Registered(s.op) ==> r == Failure("Unknown operation: " + Display(s.op))
    ensures Registered(s.op) && !Copyable(s.params) ==> r.Failure?
    ensures Registered(s.op) && r.Success? ==>
      Prepare(env.preview, s.op.s, s.params).Success? &&
      r == env.op(s.op.s, image, Prepare(env.preview, s.op.s, s.params).value).result
  {
    if !Hashable(s.op) then Failure(UnhashableError(s.op))
    else if !Registered(s.op) then Failure("Unknown operation: " + Display(s.op))
    else
      match Prepare(env.preview, s.op.s, s.params)
      case Failure(e) => Failure(e)
      case Success(p) => env.op(s.op.s, image, p).result
  }

  // ------------------------------------------------------------------
  // reference semantics
  // ------------------------------------------------------------------

  /** One entry of `PipelineResult.errors`. */
  datatype ErrorInfo = ErrorInfo(step: Value, index: nat, error: string)

  /** The image after steps `i..end` when a failing step leaves its input
      in place. */
  function PassThrough<I>(env: Env<I>, steps: seq<Step>, i: nat, end: nat, image: I): I
    requires i <= end <= |steps|
    decreases end - i
  {
    if i == end then image
    else
      var o := Outcome(env, steps[i], image);
      PassThrough(env, steps, i + 1, end, if o.Success? then o.value else image)
  }

  /** The error of every failing step among `i..`, in order. */
  function FailuresFrom<I>(env: Env<I>, steps: seq<Step>, i: nat, image: I): seq<ErrorInfo>
    requires i <= |steps|
    decreases |steps| - i
  {
    if i == |steps| then []
    else
      var o := Outcome(env, steps[i], image);
      if o.Success? then FailuresFrom(env, steps, i + 1, o.value)
      else [ErrorInfo(steps[i].op, i, o.error)] + FailuresFrom(env, steps, i + 1, image)
  }

  /** Errors about steps `i..`, named after them, one per step and in
      increasing step order. */
  predicate Ordered(steps: seq<Step>, i: nat, errors: seq<ErrorInfo>) {
    (forall k :: 0 <= k < |errors| ==> i <= errors[k].index < |steps| && errors[k].step == steps[errors[k].index].op) &&
    (forall k, l :: 0 <= k < l < |errors| ==> errors[k].index < errors[l].index)
  }

  /** The failures of `FailuresFrom` are ordered that way. */
  lemma {:induction false} FailuresOrdered<I>(env: Env<I>, steps: seq<Step>, i: nat, image: I)
    requires i <= |steps|
    ensures Ordered(steps, i, FailuresFrom(env, steps, i, image))
    decreases |steps| - i
  {
    if i < |steps| {
      var o := Outcome(env, steps[i], image);
      if o.Success? {
        assert FailuresFrom(env, steps, i, image) == FailuresFrom(env, steps, i + 1, o.value);
        FailuresOrdered(env, steps, i + 1, o.value);
      } else {
        var rest := FailuresFrom(env, steps, i + 1, image);
        var all := [ErrorInfo(steps[i].op, i, o.error)] + rest;
        assert FailuresFrom(env, steps, i, image) == all;
        FailuresOrdered(env, steps, i + 1, image);
        forall k | 0 <= k < |all|
          ensures i <= all[k].index < |steps| && all[k].step == steps[all[k].index].op
        {
          if k > 0 {
            assert all[k] == rest[k - 1];
          }
        }
        forall k, l | 0 <= k < l < |all| ensures all[k].index < all[l].index {
          assert all[l] == rest[l - 1];
          if k > 0 {
            assert all[k] == rest[k - 1];
          }
        }
      }
    }
  }

  /** The index of the first failing step among `i..`, if any. */
  function FirstFailure<I>(env: Env<I>, steps: seq<Step>, i: nat, image: I): (r: Option<nat>)
    requires i <= |steps|
    ensures r.Some? ==> i <= r.value < |steps|
    ensures r.Some? ==> Outcome(env, steps[r.value], PassThrough(env, steps, i, r.value, image)).Failure?
    decreases |steps| - i
  {
    if i == |steps| then None
    else
      var o := Outcome(env, steps[i], image);
      if o.Success? then FirstFailure(env, steps, i + 1, o.value) else Some(i)
  }

  // ------------------------------------------------------------------
  // the executor
  // ------------------------------------------------------------------

  /** The progress reports of one step, passed through its callback to
      `_handle_step_progress`: each becomes the aggregator's current
      progress and, with a listener attached, a notification. */
  datatype Relayed = Relayed(agg: Aggregator, callback: Callback, infos: seq<ProgressInfo>)

  function Relay(agg: Aggregator, cb: Callback, reports: seq<OpReport>, started: int): (r: Relayed)
    ensures r.agg.steps == agg.steps && r.agg.startTime == agg.startTime && r.agg.endTime == agg.endTime
    ensures |r.infos| == |reports|
    ensures forall k :: 0 <= k < |reports| ==>
      r.infos[k] == ProgressInfo(cb.stepName, OverallPercent(cb.stepIndex, cb.totalSteps, reports[k].fraction),
        reports[k].message, cb.stepIndex, cb.totalSteps, started + reports[k].atMs - cb.startTime)
    ensures |reports| == 0 ==> r.agg == agg
    ensures |reports| > 0 ==>
      r.agg.currentPercent == r.infos[|reports| - 1].percent && r.agg.currentStep == Some(Str(cb.stepName))
    decreases |reports|
  {
    if |reports| == 0 then Relayed(agg, cb, [])
    else
      var rep := Report(cb, reports[0].fraction, reports[0].message, started + reports[0].atMs);
      var info := rep.callback.history[|cb.history|];
      var rest := Relay(UpdateProgress(agg, info), rep.callback, reports[1..], started);
      Relayed(rest.agg, rest.callback, [info] + rest.infos)
  }

  /** Everything `execute` carries from one step to the next. */
  datatype State<I> = State(
    image: I,
    errors: seq<ErrorInfo>,
    agg: Aggregator,
    notified: seq<ProgressInfo>,
    now: int)

  /** A failed step: the error is logged and the record closed as failed;
      the image stays as it was. */
  function Fail<I>(st: State<I>, agg: Aggregator, name: Value, i: nat, msg: string, now: int): (r: State<I>)
    ensures r.image == st.image && r.errors == st.errors + [ErrorInfo(name, i, msg)]
  {
    State(st.image, st.errors + [ErrorInfo(name, i, msg)], StepCompleted(agg, false, Some(msg), now), st.notified, now)
  }

  /** The notifications step `i` of `total` produces: those of its
      operation's reports, when the operation is called at all. */
  function StepNotices<I>(env: Env<I>, s: Step, i: nat, total: nat, st: State<I>): seq<ProgressInfo> {
    if Registered(s.op) && Prepare(env.preview, s.op.s, s.params).Success? then
      var run := env.op(s.op.s, st.image, Prepare(env.preview, s.op.s, s.params).value);
      Relay(StepStarted(st.agg, s.op, i, total, st.now), NewCallback(s.op.s, i, total, true, st.now), run.reports, st.now).infos
    else []
  }

  /** What one pass of the loop body does for step `s` at index `i` of
      `total`, given the step's outcome `o`: the image advances on success,
      an error is logged on failure, and exactly one closed record is
      appended for the step. */
  ghost predicate Advances<I>(st: State<I>, next: State<I>, s: Step, i: nat, total: nat, o: Result<I, string>) {
    (o.Success? ==> next.image == o.value && next.errors == st.errors) &&
    (o.Failure? ==> next.image == st.image && next.errors == st.errors + [ErrorInfo(s.op, i, o.error)]) &&
    |next.agg.steps| == |st.agg.steps| + 1 && next.agg.steps[..|st.agg.steps|] == st.agg.steps &&
    next.agg.steps[|st.agg.steps|].Closed() &&
    next.agg.steps[|st.agg.steps|].step == s.op && next.agg.steps[|st.agg.steps|].index == i &&
    next.agg.steps[|st.agg.steps|].total == total &&
    next.agg.steps[|st.agg.steps|].success == Some(o.Success?) &&
    next.agg.startTime == st.agg.startTime && next.agg.endTime == st.agg.endTime && next.now >= st.now
  }

  /** One pass of the loop body for step `i` of `total`, for a step whose
      op can be looked up (`RunFrom` handles the one that raises). */
  function Attempt<I>(env: Env<I>, s: Step, i: nat, total: nat, st: State<I>): (r: State<I>)
    requires Hashable(s.op)
    ensures Advances(st, r, s, i, total, Outcome(env, s, st.image))
    ensures r.notified == st.notified + if env.listening then StepNotices(env, s, i, total, st) else []
  {
    var a := StepStarted(st.agg, s.op, i, total, st.now);
    if !Registered(s.op) then
      Fail(st, a, s.op, i, "Unknown operation: " + Display(s.op), st.now)
    else
      var cb := NewCallback(s.op.s, i, total, true, st.now);
      match Prepare(env.preview, s.op.s, s.params)
      case Failure(e) => Fail(st, a, s.op, i, e, st.now)
      case Success(p) =>
        var run := env.op(s.op.s, st.image, p);
        var relayed := Relay(a, cb, run.reports, st.now);
        var shown := st.notified + (if env.listening then relayed.infos else []);
        var done := st.now + run.costMs;
        match run.result
        case Failure(e) => Fail(st.(notified := shown), relayed.agg, s.op, i, e, done)
        case Success(img) => State(img, st.errors, StepCompleted(relayed.agg, true, None, done), shown, done)
  }

  /** The loop over the active steps from `i` on. `halted` is the early
      return of strict mode or a raise; `raised` is the TypeError an
      unhashable op raises out of `execute`. */
  datatype Ran<I> = Ran(state: State<I>, halted: bool, raised: Option<string>)

  function RunFrom<I>(env: Env<I>, steps: seq<Step>, i: nat, st: State<I>): (r: Ran<I>)
    requires i <= |steps|
    ensures r.raised.Some? ==>
      r.halted && exists k :: i <= k < |steps| && !Hashable(steps[k].op) && r.raised.value == UnhashableError(steps[k].op)
    ensures env.continueOnError && r.halted ==> r.raised.Some?
    ensures r.raised.None? ==> |st.errors| <= |r.state.errors| && r.state.errors[..|st.errors|] == st.errors
    ensures !r.halted ==> |r.state.agg.steps| == |st.agg.steps| + (|steps| - i)
    decreases |steps| - i
  {
    if i == |steps| then Ran(st, false, None)
    else if !Hashable(steps[i].op) then
      Ran(st.(agg := StepStarted(st.agg, steps[i].op, i, |steps|, st.now)), true, Some(UnhashableError(steps[i].op)))
    else
      var next := Attempt(env, steps[i], i, |steps|, st);
      AttemptFacts(env, steps[i], i, |steps|, st);
      if |next.errors| > |st.errors| && !env.continueOnError then Ran(next, true, None)
      else
        var r := RunFrom(env, steps, i + 1, next);
        assert r.raised.None? ==> r.state.errors[..|st.errors|] == st.errors by {
          if r.raised.None? { PrefixOfPrefix(st.errors, next.errors, r.state.errors); }
        }
        r
  }

  /** What one pass of the loop does to the error log, the step records
      and the image, in the terms the run lemmas use. */
  lemma AttemptFacts<I>(env: Env<I>, s: Step, i: nat, total: nat, st: State<I>)
    requires Hashable(s.op)
    ensures var next := Attempt(env, s, i, total, st);
      |st.errors| <= |next.errors| && next.errors[..|st.errors|] == st.errors &&
      |next.agg.steps| == |st.agg.steps| + 1 &&
      next.image == (var o := Outcome(env, s, st.image); if o.Success? then o.value else st.image)
  {
    var next := Attempt(env, s, i, total, st);
    if Outcome(env, s, st.image).Failure? {
      assert next.errors[..|st.errors|] == st.errors;
    }
  }

  /** A prefix of a prefix is a prefix. */
  lemma PrefixOfPrefix<T>(a: seq<T>, b: seq<T>, c: seq<T>)
    requires |a| <= |b| <= |c| && b[..|a|] == a && c[..|b|] == b
    ensures c[..|a|] == a
  {
    assert forall k :: 0 <= k < |a| ==> c[k] == b[k];
  }

  /** `PipelineResult`, with the executor's aggregator and the notifications
      its listener received. */
  datatype Execution<I> = Execution(
    success: bool,
    image: I,
    progressInfo: Summary,
    errors: seq<ErrorInfo>,
    aggregator: Aggregator,
    notified: seq<ProgressInfo>)

  /** `PipelineExecutor.execute` on an executor whose aggregator is `agg`,
      started at clock reading `now`: the `PipelineResult`, or the
      exception that escapes it. Only an unhashable op escapes; every other
      failure is caught and logged. */
  function Execute<I>(env: Env<I>, agg: Aggregator, image: I, raw: seq<RawStep>, now: int): (r: Result<Execution<I>, string>)
    ensures r.Success? ==> (r.value.success <==> r.value.errors == [])
    ensures r.Failure? ==>
      exists k :: 0 <= k < |ActiveSteps(raw)| && !Hashable(ActiveSteps(raw)[k].op) &&
        r.error == UnhashableError(ActiveSteps(raw)[k].op)
    ensures (forall k :: 0 <= k < |raw| ==> !Enabled(raw[k])) ==>
      r.Success? && r.value.success && r.value.image == image &&
      r.value.aggregator.steps == [] && r.value.progressInfo.steps == []
  {
    var a := Start(agg, now);
    var steps := ActiveSteps(raw);
    if |steps| == 0 then
      var fin := Finish(a, now);
      Success(Execution(true, image, GetSummary(fin), [], fin, []))
    else
      var ran := RunFrom(env, steps, 0, State(image, [], a, [], now));
      if ran.raised.Some? then Failure(ran.raised.value)
      else
        var fin := Finish(ran.state.agg, ran.state.now);
        Success(Execution(|ran.state.errors| == 0, ran.state.image, GetSummary(fin), ran.state.errors, fin, ran.state.notified))
  }

  /** `run_pipeline`: a fresh executor per call, so a pipeline with no
      enabled step reports 0 % and no elapsed time. */
  function RunPipeline<I>(env: Env<I>, image: I, raw: seq<RawStep>, now: int): (r: Result<Execution<I>, string>)
    ensures r.Success? ==> (r.value.success <==> r.value.errors == [])
    ensures (forall k :: 0 <= k < |raw| ==> !Enabled(raw[k])) ==>
      r.Success? && r.value.success && r.value.image == image && r.value.progressInfo.steps == [] &&
      r.value.progressInfo.finalPercent == 0.0 && r.value.progressInfo.totalDurationMs == 0
  {
    Execute(env, NewAggregator(), image, raw, now)
  }

  /** `start` clears the step records but not the current percentage, so
      an executor run again on a pipeline with no enabled step reports
      the percentage its previous run ended at. */
  lemma ReusedExecutorKeepsPercent<I>(env: Env<I>, agg: Aggregator, image: I, raw: seq<RawStep>, now: int)
    requires forall k :: 0 <= k < |raw| ==> !Enabled(raw[k])
    ensures Execute(env, agg, image, raw, now).Success?
    ensures Execute(env, agg, image, raw, now).value.progressInfo.finalPercent == agg.currentPercent
  {
  }

  // ------------------------------------------------------------------
  // step records
  // ------------------------------------------------------------------

  /** Some logged error is about step `j`. */
  predicate ErrorAt(errors: seq<ErrorInfo>, j: nat) {
    exists k :: 0 <= k < |errors| && errors[k].index == j
  }

  /** The first `n` active steps each have a closed record, at their own
      position, that failed exactly when an error was logged for the step;
      no error is about a later step. */
  predicate Recorded(steps: seq<Step>, n: nat, errors: seq<ErrorInfo>, records: seq<StepRecord>)
    requires n <= |steps|
  {
    |records| == n &&
    (forall k :: 0 <= k < |errors| ==> errors[k].index < n) &&
    forall j :: 0 <= j < n ==>
      records[j].Closed() && records[j].step == steps[j].op && records[j].index == j &&
      records[j].total == |steps| && (records[j].success == Some(false) <==> ErrorAt(errors, j))
  }

  lemma AttemptRecords<I>(steps: seq<Step>, i: nat, st: State<I>, next: State<I>, o: Result<I, string>)
    requires i < |steps| && Recorded(steps, i, st.errors, st.agg.steps)
    requires Advances(st, next, steps[i], i, |steps|, o)
    ensures Recorded(steps, i + 1, next.errors, next.agg.steps)
  {
    forall j | 0 <= j < i
      ensures next.agg.steps[j] == st.agg.steps[j]
      ensures ErrorAt(next.errors, j) <==> ErrorAt(st.errors, j)
    {
      assert next.agg.steps[j] == next.agg.steps[..i][j];
      if ErrorAt(next.errors, j) {
        var k :| 0 <= k < |next.errors| && next.errors[k].index == j;
        assert k < |st.errors|;
        assert st.errors[k] == next.errors[k];
      }
      if ErrorAt(st.errors, j) {
        var k :| 0 <= k < |st.errors| && st.errors[k].index == j;
        assert next.errors[k] == st.errors[k];
      }
    }
    if o.Failure? {
      assert next.errors[|st.errors|].index == i;
    } else {
      assert !ErrorAt(next.errors, i);
    }
  }

  /** Every step the loop reaches is recorded, in order, whichever mode,
      unless the loop raised. */
  lemma {:induction false} RunRecords<I>(env: Env<I>, steps: seq<Step>, i: nat, st: State<I>)
    requires i <= |steps| && Recorded(steps, i, st.errors, st.agg.steps)
    ensures var r := RunFrom(env, steps, i, st);
      r.raised.None? ==>
        |r.state.agg.steps| <= |steps| && Recorded(steps, |r.state.agg.steps|, r.state.errors, r.state.agg.steps)
    decreases |steps| - i
  {
    if i < |steps| && Hashable(steps[i].op) {
      var next := Attempt(env, steps[i], i, |steps|, st);
      AttemptRecords(steps, i, st, next, Outcome(env, steps[i], st.image));
      if |next.errors| > |st.errors| && !env.continueOnError {
        assert RunFrom(env, steps, i, st) == Ran(next, true, None);
      } else {
        assert RunFrom(env, steps, i, st) == RunFrom(env, steps, i + 1, next);
        RunRecords(env, steps, i + 1, next);
      }
    }
  }

  // ------------------------------------------------------------------
  // the two error policies
  // ------------------------------------------------------------------

  /** Continue-on-error: the loop raises exactly when some remaining op
      is unhashable; otherwise every step is attempted, and the image is
      the pass-through chain. */
  lemma {:induction false} LenientRun<I>(env: Env<I>, steps: seq<Step>, i: nat, st: State<I>)
    requires env.continueOnError && i <= |steps|
    ensures var r := RunFrom(env, steps, i, st);
      r.raised.None? <==> forall k :: i <= k < |steps| ==> Hashable(steps[k].op)
    ensures var r := RunFrom(env, steps, i, st);
      r.raised.None? ==> !r.halted && r.state.image == PassThrough(env, steps, i, |steps|, st.image)
    decreases |steps| - i
  {
    if i == |steps| {
    } else if !Hashable(steps[i].op) {
      assert RunFrom(env, steps, i, st).raised.Some?;
    } else {
      var next := Attempt(env, steps[i], i, |steps|, st);
      AttemptFacts(env, steps[i], i, |steps|, st);
      assert RunFrom(env, steps, i, st) == RunFrom(env, steps, i + 1, next);
      LenientRun(env, steps, i + 1, next);
      assert (forall k :: i <= k < |steps| ==> Hashable(steps[k].op)) <==>
        (forall k :: i + 1 <= k < |steps| ==> Hashable(steps[k].op));
      assert PassThrough(env, steps, i, |steps|, st.image) == PassThrough(env, steps, i + 1, |steps|, next.image);
    }
  }

  /** Continue-on-error: the errors are those of the failing steps, in
      order. */
  lemma {:induction false} LenientErrors<I>(env: Env<I>, steps: seq<Step>, i: nat, st: State<I>)
    requires env.continueOnError && i <= |steps|
    ensures var r := RunFrom(env, steps, i, st);
      r.raised.None? ==> r.state.errors == st.errors + FailuresFrom(env, steps, i, st.image)
    decreases |steps| - i
  {
    if i < |steps| && Hashable(steps[i].op) {
      var next := Attempt(env, steps[i], i, |steps|, st);
      assert RunFrom(env, steps, i, st) == RunFrom(env, steps, i + 1, next);
      LenientErrors(env, steps, i + 1, next);
      ErrorsStep(env, steps, i, st);
    } else if i == |steps| {
      assert st.errors + [] == st.errors;
    }
  }

  /** One loop pass moves the head of the remaining failures onto the log. */
  lemma ErrorsStep<I>(env: Env<I>, steps: seq<Step>, i: nat, st: State<I>)
    requires i < |steps| && Hashable(steps[i].op)
    ensures var next := Attempt(env, steps[i], i, |steps|, st);
      next.errors + FailuresFrom(env, steps, i + 1, next.image) == st.errors + FailuresFrom(env, steps, i, st.image)
  {
    var o := Outcome(env, steps[i], st.image);
    if o.Failure? {
      var e := ErrorInfo(steps[i].op, i, o.error);
      assert FailuresFrom(env, steps, i, st.image) == [e] + FailuresFrom(env, steps, i + 1, st.image);
      assert st.errors + [e] + FailuresFrom(env, steps, i + 1, st.image)
          == st.errors + ([e] + FailuresFrom(env, steps, i + 1, st.image));
    }
  }

  /** Strict mode: the loop stops right after the first failing step with
      exactly that step's error, or raises there when that step's op is
      unhashable; before it, every step succeeded. */
  lemma {:induction false} StrictRun<I>(env: Env<I>, steps: seq<Step>, i: nat, st: State<I>)
    requires !env.continueOnError && i <= |steps|
    ensures var r := RunFrom(env, steps, i, st);
      match FirstFailure(env, steps, i, st.image)
      case None =>
        r.raised.None? && !r.halted && r.state.errors == st.errors &&
        r.state.image == PassThrough(env, steps, i, |steps|, st.image) &&
        |r.state.agg.steps| == |st.agg.steps| + (|steps| - i)
      case Some(j) =>
        var before := PassThrough(env, steps, i, j, st.image);
        if !Hashable(steps[j].op) then r.raised == Some(UnhashableError(steps[j].op))
        else
          r.raised.None? && r.halted && r.state.image == before &&
          r.state.errors == st.errors + [ErrorInfo(steps[j].op, j, Outcome(env, steps[j], before).error)] &&
          |r.state.agg.steps| == |st.agg.steps| + (j + 1 - i)
    decreases |steps| - i
  {
    if i < |steps| && !Hashable(steps[i].op) {
      assert FirstFailure(env, steps, i, st.image) == Some(i);
      assert PassThrough(env, steps, i, i, st.image) == st.image;
    } else if i < |steps| {
      var o := Outcome(env, steps[i], st.image);
      var next := Attempt(env, steps[i], i, |steps|, st);
      assert Advances(st, next, steps[i], i, |steps|, o);
      if o.Success? {
        assert RunFrom(env, steps, i, st) == RunFrom(env, steps, i + 1, next);
        assert FirstFailure(env, steps, i, st.image) == FirstFailure(env, steps, i + 1, o.value);
        StrictRun(env, steps, i + 1, next);
        match FirstFailure(env, steps, i + 1, o.value)
        case Some(j) =>
          assert PassThrough(env, steps, i, j, st.image) == PassThrough(env, steps, i + 1, j, o.value);
        case None =>
          assert PassThrough(env, steps, i, |steps|, st.image) == PassThrough(env, steps, i + 1, |steps|, o.value);
      } else {
        assert RunFrom(env, steps, i, st) == Ran(next, true, None);
        assert FirstFailure(env, steps, i, st.image) == Some(i);
        assert PassThrough(env, steps, i, i, st.image) == st.image;
      }
    }
  }

  // ------------------------------------------------------------------
  // what `execute` returns
  // ------------------------------------------------------------------

  /** The state the loop starts from. */
  function Initial<I>(agg: Aggregator, image: I, now: int): (st: State<I>)
    ensures st.image == image && st.errors == [] && st.notified == [] && st.agg.steps == []
  {
    State(image, [], Start(agg, now), [], now)
  }

  /** `execute` is a run of the loop over the active steps, whichever
      branch it takes. */
  lemma ExecuteIsRun<I>(env: Env<I>, agg: Aggregator, image: I, raw: seq<RawStep>, now: int)
    ensures var steps := ActiveSteps(raw);
      var ran := RunFrom(env, steps, 0, Initial(agg, image, now));
      var r := Execute(env, agg, image, raw, now);
      (ran.raised.Some? ==> r == Failure(ran.raised.value)) &&
      (ran.raised.None? ==>
        r.Success? && r.value.image == ran.state.image && r.value.errors == ran.state.errors &&
        r.value.aggregator == Finish(ran.state.agg, ran.state.now) && r.value.notified == ran.state.notified)
  {
  }

  /** Every step the executor reached has a closed record in order, marked
      failed exactly when an error was logged for it, and the summary lists
      the records as they are. */
  lemma ExecuteRecords<I>(env: Env<I>, agg: Aggregator, image: I, raw: seq<RawStep>, now: int)
    ensures var r := Execute(env, agg, image, raw, now);
      r.Success? ==>
        |r.value.aggregator.steps| <= |ActiveSteps(raw)| &&
        Recorded(ActiveSteps(raw), |r.value.aggregator.steps|, r.value.errors, r.value.aggregator.steps) &&
        |r.value.progressInfo.steps| == |r.value.aggregator.steps|
  {
    RunRecords(env, ActiveSteps(raw), 0, Initial(agg, image, now));
  }

  /** Continue-on-error: `execute` raises exactly when some active op is
      unhashable. Otherwise every active step is attempted and recorded,
      the image is the pass-through chain and the errors are the failing
      steps', in step order. */
  lemma ExecuteLenient<I>(env: Env<I>, agg: Aggregator, image: I, raw: seq<RawStep>, now: int)
    requires env.continueOnError
    ensures var steps := ActiveSteps(raw);
      Execute(env, agg, image, raw, now).Success? <==> forall k :: 0 <= k < |steps| ==> Hashable(steps[k].op)
    ensures var steps := ActiveSteps(raw);
      var r := Execute(env, agg, image, raw, now);
      r.Success? ==>
        r.value.image == PassThrough(env, steps, 0, |steps|, image) &&
        r.value.errors == FailuresFrom(env, steps, 0, image) &&
        |r.value.aggregator.steps| == |steps| && Ordered(steps, 0, r.value.errors)
  {
    var steps := ActiveSteps(raw);
    var st := Initial(agg, image, now);
    var ran := RunFrom(env, steps, 0, st);
    ExecuteIsRun(env, agg, image, raw, now);
    LenientRun(env, steps, 0, st);
    LenientErrors(env, steps, 0, st);
    FailuresOrdered(env, steps, 0, image);
    if ran.raised.None? {
      assert ran.state.errors == FailuresFrom(env, steps, 0, image) by {
        assert [] + FailuresFrom(env, steps, 0, image) == FailuresFrom(env, steps, 0, image);
      }
    }
  }

  /** Strict mode: at the first failing step the executor returns at once,
      with the image as it was before that step, that one error, and one
      record per step up to and including it; if that step's op is
      unhashable, the TypeError escapes instead. Without a failure, every
      step ran and succeeded. */
  lemma ExecuteStrict<I>(env: Env<I>, agg: Aggregator, image: I, raw: seq<RawStep>, now: int)
    requires !env.continueOnError
    ensures var steps := ActiveSteps(raw);
      var r := Execute(env, agg, image, raw, now);
      match FirstFailure(env, steps, 0, image)
      case None =>
        r.Success? && r.value.success && r.value.image == PassThrough(env, steps, 0, |steps|, image) &&
        |r.value.aggregator.steps| == |steps|
      case Some(j) =>
        var before := PassThrough(env, steps, 0, j, image);
        if !Hashable(steps[j].op) then r == Failure(UnhashableError(steps[j].op))
        else
          r.Success? && !r.value.success && r.value.image == before &&
          r.value.errors == [ErrorInfo(steps[j].op, j, Outcome(env, steps[j], before).error)] &&
          |r.value.aggregator.steps| == j + 1
  {
    StrictRun(env, ActiveSteps(raw), 0, Initial(agg, image, now));
  }

  // ------------------------------------------------------------------
  // progress across the pipeline
  // ------------------------------------------------------------------

  /** An operation's reports stay within [0, 1] and never go back. */
  predicate PacedReports(reports: seq<OpReport>) {
    (forall k :: 0 <= k < |reports| ==> 0.0 <= reports[k].fraction <= 1.0) &&
    (forall k, l :: 0 <= k < l < |reports| ==> reports[k].fraction <= reports[l].fraction)
  }

  ghost predicate PacedOracle<I(!new)>(env: Env<I>) {
    forall name, image, params :: PacedReports(env.op(name, image, params).reports)
  }

  /** An operation that returns has reported completion last. */
  ghost predicate CompletingOracle<I(!new)>(env: Env<I>) {
    forall name, image, params :: env.op(name, image, params).result.Success? ==>
      |env.op(name, image, params).reports| > 0 &&
      env.op(name, image, params).reports[|env.op(name, image, params).reports| - 1].fraction == 1.0
  }

  predicate Rising(infos: seq<ProgressInfo>) {
    forall k, l :: 0 <= k < l < |infos| ==> infos[k].percent <= infos[l].percent
  }

  predicate Within(infos: seq<ProgressInfo>, lo: real, hi: real) {
    forall k :: 0 <= k < |infos| ==> lo <= infos[k].percent <= hi
  }

  /** A paced step's notifications rise, from the step's start percentage
      to the next step's. */
  lemma RelayPaced(agg: Aggregator, cb: Callback, reports: seq<OpReport>, started: int)
    requires PacedReports(reports)
    ensures Rising(Relay(agg, cb, reports, started).infos)
    ensures Within(Relay(agg, cb, reports, started).infos,
      OverallPercent(cb.stepIndex, cb.totalSteps, 0.0), OverallPercent(cb.stepIndex + 1, cb.totalSteps, 0.0))
  {
    var infos := Relay(agg, cb, reports, started).infos;
    StepBoundary(cb.stepIndex, cb.totalSteps);
    forall k | 0 <= k < |infos|
      ensures OverallPercent(cb.stepIndex, cb.totalSteps, 0.0) <= infos[k].percent
      ensures infos[k].percent <= OverallPercent(cb.stepIndex + 1, cb.totalSteps, 0.0)
    {
      OverallPercentMonotone(cb.stepIndex, cb.totalSteps, 0.0, reports[k].fraction);
      OverallPercentMonotone(cb.stepIndex, cb.totalSteps, reports[k].fraction, 1.0);
    }
    forall k, l | 0 <= k < l < |infos| ensures infos[k].percent <= infos[l].percent {
      OverallPercentMonotone(cb.stepIndex, cb.totalSteps, reports[k].fraction, reports[l].fraction);
    }
  }

  lemma AttemptRising<I(!new)>(env: Env<I>, s: Step, i: nat, total: nat, st: State<I>)
    requires PacedOracle(env)
    requires Rising(st.notified) && Within(st.notified, 0.0, OverallPercent(i, total, 0.0))
    ensures Rising(st.notified + if env.listening then StepNotices(env, s, i, total, st) else [])
    ensures Within(st.notified + (if env.listening then StepNotices(env, s, i, total, st) else []),
      0.0, OverallPercent(i + 1, total, 0.0))
  {
    OverallPercentAcrossSteps(i, i + 1, total, 0.0, 0.0);
    var added := StepNotices(env, s, i, total, st);
    NoticesPaced(env, s, i, total, st);
    if env.listening {
      AppendRising(st.notified, added, OverallPercent(i, total, 0.0), OverallPercent(i + 1, total, 0.0));
    } else {
      assert st.notified + [] == st.notified;
    }
  }

  /** The notifications of a step whose reports are paced rise, from the
      step's start percentage to the next step's. */
  lemma NoticesPaced<I(!new)>(env: Env<I>, s: Step, i: nat, total: nat, st: State<I>)
    requires PacedOracle(env)
    ensures Rising(StepNotices(env, s, i, total, st))
    ensures Within(StepNotices(env, s, i, total, st), OverallPercent(i, total, 0.0), OverallPercent(i + 1, total, 0.0))
  {
    if Registered(s.op) && Prepare(env.preview, s.op.s, s.params).Success? {
      var p := Prepare(env.preview, s.op.s, s.params).value;
      NoticesOfRun(env, s, i, total, st, p);
    }
  }

  lemma NoticesOfRun<I(!new)>(env: Env<I>, s: Step, i: nat, total: nat, st: State<I>, p: Value)
    requires PacedOracle(env)
    requires Registered(s.op) && Prepare(env.preview, s.op.s, s.params) == Success(p)
    ensures var infos := StepNotices(env, s, i, total, st);
      Rising(infos) && Within(infos, OverallPercent(i, total, 0.0), OverallPercent(i + 1, total, 0.0))
  {
    var reports := env.op(s.op.s, st.image, p).reports;
    var a := StepStarted(st.agg, s.op, i, total, st.now);
    var cb := NewCallback(s.op.s, i, total, true, st.now);
    assert PacedReports(reports);
    RelayPaced(a, cb, reports, st.now);
  }

  /** Appending notifications that start where the earlier ones stopped
      keeps the sequence rising. */
  lemma AppendRising(earlier: seq<ProgressInfo>, added: seq<ProgressInfo>, mid: real, hi: real)
    requires Rising(earlier) && Within(earlier, 0.0, mid)
    requires Rising(added) && Within(added, mid, hi) && 0.0 <= mid <= hi
    ensures Rising(earlier + added) && Within(earlier + added, 0.0, hi)
  {
    var all := earlier + added;
    forall k, l | 0 <= k < l < |all| ensures all[k].percent <= all[l].percent {
      if l >= |earlier| && k < |earlier| {
        assert all[l] == added[l - |earlier|];
      } else if k >= |earlier| {
        assert all[k] == added[k - |earlier|];
        assert all[l] == added[l - |earlier|];
      }
    }
    forall k | 0 <= k < |all| ensures 0.0 <= all[k].percent <= hi {
      if k >= |earlier| {
        assert all[k] == added[k - |earlier|];
      }
    }
  }

  lemma {:induction false} RunRising<I(!new)>(env: Env<I>, steps: seq<Step>, i: nat, st: State<I>)
    requires i <= |steps| && PacedOracle(env)
    requires Rising(st.notified) && Within(st.notified, 0.0, OverallPercent(i, |steps|, 0.0))
    ensures Rising(RunFrom(env, steps, i, st).state.notified)
    decreases |steps| - i
  {
    if i < |steps| && Hashable(steps[i].op) {
      var next := Attempt(env, steps[i], i, |steps|, st);
      AttemptRising(env, steps[i], i, |steps|, st);
      if !(|next.errors| > |st.errors| && !env.continueOnError) {
        assert RunFrom(env, steps, i, st) == RunFrom(env, steps, i + 1, next);
        RunRising(env, steps, i + 1, next);
      }
    }
  }

  /** When every operation's reports are paced, the listener sees the
      overall percentage never decrease over the whole run. */
  lemma ExecuteProgressRises<I(!new)>(env: Env<I>, agg: Aggregator, image: I, raw: seq<RawStep>, now: int)
    requires PacedOracle(env)
    ensures var r := Execute(env, agg, image, raw, now);
      r.Success? ==> Rising(r.value.notified)
  {
    RunRising(env, ActiveSteps(raw), 0, Initial(agg, image, now));
  }

  /** A step whose operation returned, with a completing oracle, leaves the
      aggregator at the percentage of its own completion. */
  lemma AttemptCompletes<I(!new)>(env: Env<I>, s: Step, i: nat, total: nat, st: State<I>)
    requires CompletingOracle(env) && Outcome(env, s, st.image).Success?
    ensures Attempt(env, s, i, total, st).agg.currentPercent == OverallPercent(i, total, 1.0)
  {
    var a := StepStarted(st.agg, s.op, i, total, st.now);
    var cb := NewCallback(s.op.s, i, total, true, st.now);
    var run := env.op(s.op.s, st.image, Prepare(env.preview, s.op.s, s.params).value);
    var relayed := Relay(a, cb, run.reports, st.now);
    assert |run.reports| > 0 && run.reports[|run.reports| - 1].fraction == 1.0;
  }

  lemma {:induction false} RunFinalPercent<I(!new)>(env: Env<I>, steps: seq<Step>, i: nat, st: State<I>)
    requires i <= |steps| && CompletingOracle(env) && |st.agg.steps| == i
    ensures var r := RunFrom(env, steps, i, st).state;
      |r.agg.steps| == |steps| > i && r.agg.steps[|steps| - 1].success == Some(true) ==>
      r.agg.currentPercent == 100.0
    decreases |steps| - i
  {
    if i < |steps| && Hashable(steps[i].op) {
      var next := Attempt(env, steps[i], i, |steps|, st);
      if |next.errors| > |st.errors| && !env.continueOnError {
        assert RunFrom(env, steps, i, st) == Ran(next, true, None);
      } else {
        assert RunFrom(env, steps, i, st) == RunFrom(env, steps, i + 1, next);
        if i == |steps| - 1 {
          if next.agg.steps[i].success == Some(true) {
            AttemptCompletes(env, steps[i], i, |steps|, st);
            LastStepComplete(|steps|);
          }
        } else {
          RunFinalPercent(env, steps, i + 1, next);
        }
      }
    }
  }

  /** When the last active step ran and returned, the summary's final
      percentage is 100, provided operations report completion last. A run
      that ends on a failing or unknown step may stop short of 100. */
  lemma ExecuteEndsAtHundred<I(!new)>(env: Env<I>, agg: Aggregator, image: I, raw: seq<RawStep>, now: int)
    requires CompletingOracle(env)
    ensures var r := Execute(env, agg, image, raw, now);
      var n := |ActiveSteps(raw)|;
      r.Success? && |r.value.aggregator.steps| == n > 0 && r.value.aggregator.steps[n - 1].success == Some(true) ==>
      r.value.progressInfo.finalPercent == 100.0
  {
    RunFinalPercent(env, ActiveSteps(raw), 0, Initial(agg, image, now));
  }
}
