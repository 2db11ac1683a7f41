/** Failure-compatible wrappers: a Java reference that may be null is an
    Option, and an operation that may throw returns a Result or an Outcome. */
module Wrappers {

  /** A value that may be absent (a Java null). */
  datatype Option<+T> = None | Some(value: T) {

    predicate IsFailure() {
      None?
    }

    function PropagateFailure<U>(): Option<U>
      requires None?
    {
      None
    }

    function Extract(): T
      requires Some?
    {
      value
    }
  }

  /** The value an operation returns, or the exception it throws. */
  datatype Result<+R, +E> = Success(value: R) | Failure(error: E) {

    predicate IsFailure() {
      Failure?
    }

    function PropagateFailure<U>(): Result<U, E>
      requires Failure?
    {
      Failure(error)
    }

    function Extract(): R
      requires Success?
    {
      value
    }
  }

  /** A check that either passes or throws; it carries no value. */
  datatype Outcome<+E> = Pass | Fail(error: E)
}
