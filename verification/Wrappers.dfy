/** Failure-compatible results: a call either commits with a value or reverts with an error. */
module Wrappers {

  datatype Option<+T> = None | Some(value: T)

  datatype Result<+T, +E> = Success(value: T) | Failure(error: E) {
    predicate IsFailure() {
      Failure?
    }

    function PropagateFailure<U>(): Result<U, E>
      requires Failure?
    {
      Failure(error)
    }

    function Extract(): T
      requires Success?
    {
      value
    }
  }

  /** The outcome of a single `require`. */
  datatype Guard<+E> = Pass | Reject(error: E) {
    predicate IsFailure() {
      Reject?
    }

    function PropagateFailure<U>(): Result<U, E>
      requires Reject?
    {
      Failure(error)
    }
  }

  function Require<E>(condition: bool, error: E): Guard<E> {
    if condition then Pass else Reject(error)
  }
}
