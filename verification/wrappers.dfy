/** Failure-compatible wrappers for the outcomes of the ZonedDateTime operations:
    an operation either returns a value or throws one of the JavaScript error kinds. */
module Wrappers {

  datatype Option<+T> = None | Some(value: T) {
    function GetOr(default: T): T {
      match this
      case Some(v) => v
      case None => default
    }
  }

  /** The error kinds the core throws: `TypeError`, `RangeError`, and a plain
      `Error` for operations whose bodies are not implemented yet. */
  datatype Exception = TypeError | RangeError | Error

  datatype Result<+T> = Ok(value: T) | Err(error: Exception) {
    predicate IsFailure() {
      Err?
    }

    function PropagateFailure<U>(): Result<U>
      requires Err?
    {
      Err(error)
    }

    function Extract(): T
      requires Ok?
    {
      value
    }
  }
}
