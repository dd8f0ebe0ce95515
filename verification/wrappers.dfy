/** Failure-carrying datatypes shared by the whole model: Python's `None`
    becomes `None`, and a raised exception (or an HTTP error response)
    becomes `Failure`. */
module Wrappers {

  datatype Option<+T> = None | Some(value: T) {

    /** Returns the value in `Some`, or `default` for `None`. */
    function GetOr(default: T): T {
      match this
      case Some(v) => v
      case None => default
    }
  }

  datatype Result<+R, +E> = Success(value: R) | Failure(error: E) {

    predicate IsFailure() {
      Failure?
    }

    function PropagateFailure<U>(): Result<U, E>
      requires Failure?
    {
      Failure(error)
    }

    function Extract(): R
      requires Success?
    {
      value
    }
  }
}
