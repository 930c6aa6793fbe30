/** `validate_pipeline_config`: a structural check of a pipeline
    description before it is run. Complaints are kept structured; the
    f-string wording around the step index is not modelled. */
module PipelineConfig {
  import opened Wrappers
  import opened Values
  import opened Registry

  /** What can be wrong with one step. */
  datatype Problem =
    | NotADict              // "Step i: must be a dictionary"
    | MissingOp             // "Step i: missing 'op' field"
    | UnknownOp(op: Value)  // "Step i: unknown operation '<op>'"
    | ParamsNotADict        // "Step i: 'params' must be a dictionary"

  /** One message of the `errors` list. */
  datatype Complaint =
    | NotAList                          // "Pipeline must be a list of steps"
    | About(index: nat, problem: Problem)

  datatype Validation = Validation(valid: bool, errors: seq<Complaint>)

  /** `step.get(key)`: Python's `None` when the key is absent. */
  function Field(step: map<string, Value>, key: string): Value {
    Get(step, key, Null)
  }

  /** The step is acceptable to the checker. */
  predicate Acceptable(step: Value) {
    step.Dict? && Registered(Field(step.fields, "op")) &&
    (Field(step.fields, "params").Null? || Field(step.fields, "params").Dict?)
  }

  /** What is wrong with step `i`, in the order the checks run. */
  function StepComplaints(i: nat, step: Value): (r: seq<Complaint>)
    ensures forall c :: c in r ==> c.About? && c.index == i
    ensures r == [] <==> Acceptable(step)
    ensures forall k, l :: 0 <= k < l < |r| ==> r[l].problem == ParamsNotADict && r[k].problem != ParamsNotADict
  {
    if !step.Dict? then [About(i, NotADict)]
    else
      var op := Field(step.fields, "op");
      var params := Field(step.fields, "params");
      var opComplaint :=
        if !Truthy(op) then [About(i, MissingOp)]
        else if !Registered(op) then [About(i, UnknownOp(op))]
        else [];
      var paramsComplaint := if !params.Null? && !params.Dict? then [About(i, ParamsNotADict)] else [];
      assert Registered(op) ==> Truthy(op);
      opComplaint + paramsComplaint
  }

  /** Each check of a step complains exactly when its condition fails. */
  lemma StepComplaintsMeaning(i: nat, step: Value)
    ensures !step.Dict? ==> StepComplaints(i, step) == [About(i, NotADict)]
    ensures step.Dict? ==>
      (About(i, MissingOp) in StepComplaints(i, step) <==> !Truthy(Field(step.fields, "op")))
    ensures step.Dict? ==>
      (About(i, UnknownOp(Field(step.fields, "op"))) in StepComplaints(i, step) <==>
        Truthy(Field(step.fields, "op")) && !Registered(Field(step.fields, "op")))
    ensures step.Dict? ==>
      (About(i, ParamsNotADict) in StepComplaints(i, step) <==>
        !Field(step.fields, "params").Null? && !Field(step.fields, "params").Dict?)
  {
  }

  /** Complaint `x` comes before `y`: it is about an earlier step, or about
      the same step's op while `y` is about its params. */
  predicate Before(x: Complaint, y: Complaint) {
    x.About? && y.About? &&
    (x.index < y.index || (x.index == y.index && x.problem != ParamsNotADict && y.problem == ParamsNotADict))
  }

  /** The complaints about steps `from..`, step by step. */
  function ComplaintsFrom(steps: seq<Value>, from: nat): (r: seq<Complaint>)
    requires from <= |steps|
    ensures forall c :: c in r ==> c.About? && from <= c.index < |steps|
    ensures forall k, l :: 0 <= k < l < |r| ==> Before(r[k], r[l])
    decreases |steps| - from
  {
    if from == |steps| then []
    else
      var here := StepComplaints(from, steps[from]);
      var rest := ComplaintsFrom(steps, from + 1);
      assert forall k :: 0 <= k < |here| ==> here[k] in here;
      assert forall k :: 0 <= k < |rest| ==> rest[k] in rest;
      here + rest
  }

  /** Steps `from..` are all acceptable. */
  predicate AllAcceptable(steps: seq<Value>, from: nat)
    decreases |steps| - from
  {
    from >= |steps| || (Acceptable(steps[from]) && AllAcceptable(steps, from + 1))
  }

  lemma {:induction false} AllAcceptableMeans(steps: seq<Value>, from: nat)
    requires from <= |steps|
    ensures AllAcceptable(steps, from) <==> forall k :: from <= k < |steps| ==> Acceptable(steps[k])
    decreases |steps| - from
  {
    if from < |steps| {
      AllAcceptableMeans(steps, from + 1);
      if Acceptable(steps[from]) && AllAcceptable(steps, from + 1) {
        forall k | from <= k < |steps| ensures Acceptable(steps[k]) {
          if k > from {
            assert from + 1 <= k;
          }
        }
      }
    }
  }

  /** The complaints about steps `from..` are empty exactly when step
      `from` has none and neither have the later ones. */
  lemma ComplaintsFromStep(steps: seq<Value>, from: nat)
    requires from < |steps|
    ensures ComplaintsFrom(steps, from) == [] <==>
      StepComplaints(from, steps[from]) == [] && ComplaintsFrom(steps, from + 1) == []
  {
    var here := StepComplaints(from, steps[from]);
    var rest := ComplaintsFrom(steps, from + 1);
    assert ComplaintsFrom(steps, from) == here + rest;
    assert |here + rest| == |here| + |rest|;
  }

  /** No complaint about steps `from..` exactly when each of them is
      acceptable. */
  lemma {:induction false} ComplaintsEmptyIff(steps: seq<Value>, from: nat)
    requires from <= |steps|
    ensures ComplaintsFrom(steps, from) == [] <==> AllAcceptable(steps, from)
    decreases |steps| - from
  {
    if from < |steps| {
      ComplaintsFromStep(steps, from);
      ComplaintsEmptyIff(steps, from + 1);
      assert StepComplaints(from, steps[from]) == [] <==> Acceptable(steps[from]);
      assert AllAcceptable(steps, from) <==> Acceptable(steps[from]) && AllAcceptable(steps, from + 1);
    }
  }

  /** Every problem of every step from `from` on is reported. */
  lemma {:induction false} ComplaintsComplete(steps: seq<Value>, from: nat, k: nat, c: Complaint)
    requires from <= k < |steps| && c in StepComplaints(k, steps[k])
    ensures c in ComplaintsFrom(steps, from)
    decreases k - from
  {
    if k > from {
      ComplaintsComplete(steps, from + 1, k, c);
    }
  }

  /** A complaint is about a step that has that very problem. */
  lemma {:induction false} ComplaintsSound(steps: seq<Value>, from: nat, c: Complaint)
    requires from <= |steps| && c in ComplaintsFrom(steps, from)
    ensures c.About? && from <= c.index < |steps| && c in StepComplaints(c.index, steps[c.index])
    decreases |steps| - from
  {
    if c !in StepComplaints(from, steps[from]) {
      ComplaintsSound(steps, from + 1, c);
    }
  }

  /** The checker, with an unhashable `op` treated as an unknown operation. */
  function Validate(steps: Value): (r: Validation)
    ensures !steps.List? ==> r == Validation(false, [NotAList])
    ensures r.valid <==> r.errors == []
    ensures steps.List? ==> (r.valid <==> forall k :: 0 <= k < |steps.items| ==> Acceptable(steps.items[k]))
    ensures steps.List? ==> forall c :: c in r.errors ==>
      c.About? && c.index < |steps.items| && c in StepComplaints(c.index, steps.items[c.index])
    ensures steps.List? ==> forall k, c :: 0 <= k < |steps.items| && c in StepComplaints(k, steps.items[k]) ==>
      c in r.errors
    ensures steps.List? ==> forall k, l :: 0 <= k < l < |r.errors| ==> Before(r.errors[k], r.errors[l])
  {
    if !steps.List? then Validation(false, [NotAList])
    else
      var errors := ComplaintsFrom(steps.items, 0);
      ComplaintsEmptyIff(steps.items, 0);
      AllAcceptableMeans(steps.items, 0);
      assert forall c :: c in errors ==> c.About? && c.index < |steps.items| && c in StepComplaints(c.index, steps.items[c.index]) by {
        forall c | c in errors ensures c.About? && c.index < |steps.items| && c in StepComplaints(c.index, steps.items[c.index]) {
          ComplaintsSound(steps.items, 0, c);
        }
      }
      forall k, c | 0 <= k < |steps.items| && c in StepComplaints(k, steps.items[k]) ensures c in errors {
        ComplaintsComplete(steps.items, 0, k, c);
      }
      Validation(|errors| == 0, errors)
  }

  // ------------------------------------------------------------------
  // the checker as written
  // ------------------------------------------------------------------

  /** The first step whose truthy `op` cannot be looked up in the
      registry, if any. */
  function FirstUnhashable(steps: seq<Value>, from: nat): (r: Option<nat>)
    requires from <= |steps|
    ensures r.Some? ==>
      from <= r.value < |steps| && steps[r.value].Dict? &&
      Truthy(Field(steps[r.value].fields, "op")) && !Hashable(Field(steps[r.value].fields, "op"))
    ensures r.None? ==> forall k :: from <= k < |steps| && steps[k].Dict? && Truthy(Field(steps[k].fields, "op")) ==>
      Hashable(Field(steps[k].fields, "op"))
    decreases |steps| - from
  {
    if from == |steps| then None
    else if steps[from].Dict? && Truthy(Field(steps[from].fields, "op")) && !Hashable(Field(steps[from].fields, "op")) then
      Some(from)
    else FirstUnhashable(steps, from + 1)
  }

  /** `validate_pipeline_config` as written: `op not in OP_REGISTRY` hashes
      `op`, so a truthy list or dict escapes as a TypeError instead of
      becoming a complaint. */
  function ValidateAsWritten(steps: Value): (r: Result<Validation, string>)
    ensures !steps.List? ==> r == Success(Validation(false, [NotAList]))
    ensures steps.List? ==> (r.Failure? <==> FirstUnhashable(steps.items, 0).Some?)
    ensures r.Success? ==> r.value == Validate(steps)
  {
    if !steps.List? then Success(Validation(false, [NotAList]))
    else
      match FirstUnhashable(steps.items, 0)
      case Some(k) =>
        Failure("unhashable type: '" + TypeName(Field(steps.items[k].fields, "op")) + "'")
      case None => Success(Validate(steps))
  }

  /** A step whose `op` is a non-empty list makes the checker raise. */
  lemma UnhashableOpRaises()
    ensures ValidateAsWritten(List([Dict(map["op" := List([Str("grayscale")])])])).Failure?
    ensures !Validate(List([Dict(map["op" := List([Str("grayscale")])])])).valid
  {
    var step := Dict(map["op" := List([Str("grayscale")])]);
    assert Field(step.fields, "op") == List([Str("grayscale")]);
    assert FirstUnhashable([step], 0) == Some(0);
    assert !Acceptable([step][0]);
  }
}
