/** Shared vocabulary: optional values, results, and the exception kinds the
    library raises.  Every operation that can raise in the original returns a
    `Result`, whose `Err` carries the kind of exception. */
module Base {

  datatype Option<+T> = None | Some(value: T)

  /** The exception classes of the library (dagflow.core.exception) together
      with the Python built-in exceptions that the modelled code raises and
      the validation error of the `schema` library. */
  datatype Error =
    | ClosedGraphError
    | UnclosedGraphError
    | ClosingError
    | OpeningError
    | CriticalError
    | ReconnectionError
    | ConnectionError
    | AllocationError
    | InitializationError
    | TypeFunctionError
    | CalculationError
    | DagflowError
    | ValueError
    | TypeError
    | KeyError
    | IndexError
    | RuntimeError
    | AttributeError
    | ZeroDivisionError
    | UnboundLocalError
    | SchemaError

  datatype Result<+T> = Ok(value: T) | Err(error: Error) {
    predicate IsFailure() { Err? }
    function PropagateFailure<U>(): Result<U>
      requires Err?
    {
      Err(error)
    }
    function Extract(): T
      requires Ok?
    {
      value
    }
  }

  /** An operation that only succeeds or raises. */
  datatype Outcome = Pass | Fail(error: Error) {
    predicate IsFailure() { Fail? }
    function PropagateFailure<U>(): Result<U>
      requires Fail?
    {
      Err(error)
    }
  }

  function Need(cond: bool, e: Error): (r: Outcome)
    ensures r.Pass? <==> cond
  {
    if cond then Pass else Fail(e)
  }

  /** Sum of a sequence of integers. */
  function Sum(s: seq<int>): int
  {
    if s == [] then 0 else Sum(s[..|s| - 1]) + s[|s| - 1]
  }

  /** Product of a sequence of naturals (numpy's `prod`, 1 for the empty shape). */
  function Prod(s: seq<nat>): nat
  {
    if s == [] then 1 else Prod(s[..|s| - 1]) * s[|s| - 1]
  }

  /** A Python slice bound on `len` items, for a slice of positive step: a
      negative bound counts from the end, and the bound is then clamped to
      `[0, len]`; None stands for `default`. */
  function SliceBound(len: nat, b: Option<int>, default: nat): (r: nat)
    requires default <= len
    ensures r <= len
    ensures b.Some? && 0 <= b.value <= len ==> r == b.value
    ensures b.Some? && b.value < 0 <= len + b.value ==> r == len + b.value
  {
    if b.None? then default
    else if b.value < 0 then (if b.value + len < 0 then 0 else b.value + len)
    else if b.value > len then len
    else b.value
  }

  /** `shape[-1 - i]`: axes counted from the last one. */
  function FromEnd(s: seq<nat>, i: nat): nat
    requires i < |s|
  {
    s[|s| - 1 - i]
  }
}
