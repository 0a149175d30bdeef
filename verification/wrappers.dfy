/** Failure-compatible wrappers used throughout the model. */
module Wrappers {

  /** An optional value: a markup anchor that may be missing, a parse that may fail. */
  datatype Option<+T> = None | Some(value: T)

  /** Either a value or the error that aborts the scraper run. */
  datatype Result<+T, +E> = Success(value: T) | Failure(error: E) {

    predicate IsFailure() {
      Failure?
    }

    function PropagateFailure<U>(): Result<U, E>
      requires Failure?
    {
      Failure(error)
    }

    function Extract(): T
      requires Success?
    {
      value
    }
  }
}
