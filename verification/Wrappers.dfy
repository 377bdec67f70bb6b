/** Failure-compatible results, shared by every module. */
module Wrappers {
  datatype Option<+T> = None | Some(value: T)

  /** `Err` carries the stable error code the source raises. */
  datatype Result<+T, +E> = Ok(value: T) | Err(error: E) {
    predicate IsFailure() {
      Err?
    }

    function PropagateFailure<U>(): Result<U, E>
      requires Err?
    {
      Err(error)
    }

    function Extract(): T
      requires Ok?
    {
      value
    }
  }
}
