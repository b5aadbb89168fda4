/** Failure-carrying results shared by every module of the model. Python raises
    exceptions; the model returns them as values. */
module Wrappers {

  /** The Python exception classes the modelled code raises. `DuplicationError`
      is the exception of the `bidict` mapping when a value is already bound to
      another key; `ZeroDivisionError` comes from `//` and `%` by zero. */
  datatype Error =
    | TypeError
    | KeyError
    | ValueError
    | RuntimeError
    | AttributeError
    | IndexError
    | AssertionError
    | ZeroDivisionError
    | DuplicationError

  datatype Option<+T> = None | Some(value: T) {
    function GetOr(default: T): T {
      match this
      case Some(v) => v
      case None => default
    }
  }

  datatype Result<+T> = Ok(value: T) | Err(error: Error) {
    predicate IsFailure() { Err? }

    function PropagateFailure<U>(): Result<U>
      requires Err?
    {
      Err(error)
    }

    function Extract(): T
      requires Ok?
    {
      value
    }
  }

  /** The outcome of an operation that returns nothing but may raise. */
  datatype Outcome = Pass | Fail(error: Error)
}
