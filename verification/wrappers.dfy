/** Failure-compatible return types: Go's `(value, error)` pairs become `Result`,
    a bare `error` return becomes `Outcome`, and Go's "nil or value" becomes `Option`. */
module Wrappers {

  datatype Option<+T> = None | Some(value: T)

  datatype Result<+T, +E> = Success(value: T) | Failure(error: E) {

    predicate IsFailure() {
      Failure?
    }

    function PropagateFailure<U>(): Result<U, E>
      requires Failure?
    {
      Failure(error)
    }

    function Extract(): T
      requires Success?
    {
      value
    }
  }

  /** A Go `error` return: `Pass` is `nil`. */
  datatype Outcome<+E> = Pass | Fail(error: E)
}
