/** Option and Result values standing in for PHP's null and for thrown exceptions. */
module Wrappers {

  datatype Option<+T> = None | Some(value: T) {
    /** The value, or `default` when absent: PHP's `$x ?? default`. */
    function GetOr(default: T): T {
      match this
      case Some(v) => v
      case None => default
    }
  }

  /** A call that either returns a value or throws an error. */
  datatype Result<+R, +E> = Success(value: R) | Failure(error: E)

  /** A call that either completes (returns `void`) or throws an error. */
  datatype Outcome<+E> = Pass | Fail(error: E)
}
