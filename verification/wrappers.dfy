/** Failure-compatible wrappers: a nullable reference, a value-or-exception
    result and a pass-or-throw outcome. */
module Wrappers {

  /** A Java reference that may be null. */
  datatype Option<+T> = None | Some(value: T)

  /** The value a Java call returns, or the exception it throws. */
  datatype Result<+T, +E> = Ok(value: T) | Err(error: E) {
    predicate IsFailure() {
      Err?
    }

    function PropagateFailure<U>(): Result<U, E>
      requires Err?
    {
      Err(error)
    }

    function Extract(): T
      requires Ok?
    {
      value
    }
  }

  /** A void Java call: it returns normally or throws. */
  datatype Outcome<+E> = Pass | Fail(error: E)
}
