/** Optional values and results with an error, used wherever the source returns null or throws. */
module Wrappers {

  /** A value that may be absent (PHP's nullable types). */
  datatype Option<+T> = None | Some(value: T) {

    /** The value, or `default` when absent (PHP's `??` operator). */
    function GetOr(default: T): T {
      match this
      case Some(v) => v
      case None => default
    }
  }

  /** The outcome of an operation that may fail with an error (an exception in the source). */
  datatype Result<+T, +E> = Ok(value: T) | Err(error: E)
}
