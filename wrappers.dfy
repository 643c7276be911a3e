/** Option and Result, the failure-compatible wrappers used for the
    dashboard's exceptions and fallbacks. */
module Wrappers {

  datatype Option<+T> = None | Some(value: T)

  datatype Result<+R, +E> = Success(value: R) | Failure(error: E) {

    predicate IsFailure() {
      Failure?
    }

    function PropagateFailure<U>(): Result<U, E>
      requires Failure?
    {
      Failure(error)
    }

    function Extract(): R
      requires Success?
    {
      value
    }

    /** The value, or `default` when the computation failed. */
    function GetOr(default: R): R {
      match this
      case Success(v) => v
      case Failure(_) => default
    }
  }
}
