/** Failure-carrying datatypes shared by the whole model.

    Python signals failure by raising; the model returns a `Result` whose
    failure case names the exception class the source raises and the field
    or key it concerns. */
module Wrappers {

  datatype Option<+T> = None | Some(value: T) {

    /** The value, or `default` when absent */
    function GetOr(default: T): T {
      match this
      case Some(v) => v
      case None => default
    }
  }

  /** The exception classes the modelled code raises, each with the name of
      the argument, field or key that caused it.  `InvalidOperation` is the
      `decimal` module's signal for text that is not a number. */
  datatype Error =
    | TypeError(what: string)
    | ValueError(what: string)
    | KeyError(key: string)
    | AttributeError(what: string)
    | InvalidOperation(what: string)

  datatype Result<+R> = Success(value: R) | Failure(error: Error) {

    predicate IsFailure() {
      Failure?
    }

    function PropagateFailure<U>(): Result<U>
      requires Failure?
    {
      Failure(error)
    }

    function Extract(): R
      requires Success?
    {
      value
    }
  }

  /** `Success(())` when `condition` holds, the given error otherwise; used
      with `:-` to mirror a Python `if not condition: raise ...` guard. */
  function Check(condition: bool, error: Error): (r: Result<()>)
  {
    if condition then Success(()) else Failure(error)
  }
}
