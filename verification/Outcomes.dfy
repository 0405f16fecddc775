/** Results of code that may throw.  Every thrown code of the decision package is one constructor. */
module Outcomes {

  datatype Option<+T> = None | Some(value: T)

  datatype Result<+T, +E> = Ok(value: T) | Err(error: E) {

    predicate IsFailure() {
      Err?
    }

    function PropagateFailure<U>(): Result<U, E>
      requires Err?
    {
      Err(error)
    }

    function Extract(): T
      requires Ok?
    {
      value
    }
  }

  /** The codes of `ExactDecimalError` and `AssessmentError`; `MissingValue` is the TypeError of reading from undefined. */
  datatype Failure =
    | DivideByZero
    | InvalidDecimal
    | Overflow
    | CurrencyMismatch
    | CalculationInputMismatch
    | Duplicate
    | FunctionalUnitMismatch
    | InvalidInput
    | RouteMismatch
    | ScenarioMismatch
    | UnitMismatch
    | WeightSum
    | MissingValue

  type Outcome<+T> = Result<T, Failure>

  /** What a list-building loop returns in the end: the part already built, then the rest, unless the rest throws. */
  function Prepend<T>(done: seq<T>, rest: Outcome<seq<T>>): (r: Outcome<seq<T>>)
    ensures done == [] ==> r == rest
    ensures rest == Ok([]) ==> r == Ok(done)
  {
    assert rest.Ok? ==> [] + rest.value == rest.value;
    assert done + [] == done;
    if rest.Ok? then Ok(done + rest.value) else rest
  }

  lemma PrependAll<T>(done: seq<T>, more: seq<T>, rest: Outcome<seq<T>>)
    ensures Prepend(done, Prepend(more, rest)) == Prepend(done + more, rest)
  {
    if rest.Ok? {
      assert done + (more + rest.value) == (done + more) + rest.value;
    }
  }
}
