/** Failure-compatible result types shared by every module of the model. */
module Wrappers {

  /** A value that may be missing: a pandas cell that holds NaN/NA is `None`. */
  datatype Option<+T> = None | Some(value: T)

  /** The outcome of an operation that the source ends with an exception or `sys.exit`. */
  datatype Result<+T, +E> = Success(value: T) | Failure(error: E) {

    predicate IsFailure() {
      Failure?
    }

    function PropagateFailure<U>(): Result<U, E>
      requires Failure?
    {
      Failure(error)
    }

    function Extract(): T
      requires Success?
    {
      value
    }
  }
}
