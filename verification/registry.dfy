/** The closed catalogue of preprocessing operations (`OP_REGISTRY`) and the
    contract every operation follows: it either returns an image or raises,
    and in both cases it may have reported progress fractions on the way. */
module Registry {
  import opened Wrappers
  import opened Values

  datatype Operation = Normalize | Grayscale | Deskew | Denoise | Contrast | Sharpen | Threshold

  /** The registry key of an operation. */
  function Name(op: Operation): string {
    match op
    case Normalize => "normalize"
    case Grayscale => "grayscale"
    case Deskew => "deskew"
    case Denoise => "denoise"
    case Contrast => "contrast"
    case Sharpen => "sharpen"
    case Threshold => "threshold"
  }

  /** `list_operations()`: the registry keys in insertion order. */
  function ListOperations(): (r: seq<string>)
    ensures |r| == 7
    ensures forall i, j :: 0 <= i < j < |r| ==> r[i] != r[j]
    ensures forall op: Operation :: Name(op) in r
  {
    ["normalize", "grayscale", "deskew", "denoise", "contrast", "sharpen", "threshold"]
  }

  /** `get_operation(name)`: `None` for every name outside the registry. */
  function GetOperation(name: string): Option<Operation> {
    if name == "normalize" then Some(Normalize)
    else if name == "grayscale" then Some(Grayscale)
    else if name == "deskew" then Some(Deskew)
    else if name == "denoise" then Some(Denoise)
    else if name == "contrast" then Some(Contrast)
    else if name == "sharpen" then Some(Sharpen)
    else if name == "threshold" then Some(Threshold)
    else None
  }

  predicate IsOperation(name: string) {
    GetOperation(name).Some?
  }

  /** A value that names a registered operation. Looking any other
      hashable value up in the registry finds nothing: only a string can
      equal one of its string keys. */
  predicate Registered(op: Value) {
    op.Str? && IsOperation(op.s)
  }

  /** The lookup finds exactly the listed names, each under its own key. */
  lemma GetOperationListed(name: string)
    ensures GetOperation(name).Some? <==> name in ListOperations()
    ensures GetOperation(name).Some? ==> Name(GetOperation(name).value) == name
  {
  }

  /** Looking up an operation's own key finds that operation. */
  lemma NameRoundTrip(op: Operation)
    ensures GetOperation(Name(op)) == Some(op)
  {
  }

  /** What one invocation of an operation produced: its image or the message
      of the exception it raised, and the within-step progress fractions it
      reported before returning or raising. */
  datatype OpRun<I> = OpRun(result: Result<I, string>, reports: seq<real>)

  /** Reported fractions lie in [0, 1] and never go down. */
  predicate Paced(reports: seq<real>) {
    (forall i :: 0 <= i < |reports| ==> 0.0 <= reports[i] <= 1.0) &&
    (forall i, j :: 0 <= i < j < |reports| ==> reports[i] <= reports[j])
  }

  /** The first `n` fractions of a paced script: what an operation has
      reported when it stops after its `n`-th report. */
  function Upto(script: seq<real>, n: nat): (r: seq<real>)
    requires Paced(script) && n <= |script|
    ensures Paced(r) && |r| == n
    ensures forall i :: 0 <= i < n ==> r[i] == script[i]
  {
    script[..n]
  }

  /** A successful run ends by reporting completion (fraction 1.0). */
  predicate Completes<I>(run: OpRun<I>) {
    run.result.Success? ==> |run.reports| > 0 && run.reports[|run.reports| - 1] == 1.0
  }
}
