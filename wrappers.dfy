/** Failure-compatible wrappers used throughout the model. */
module Wrappers {

  /** A value that may be absent (JavaScript's `undefined`, or an unset slot). */
  datatype Option<+T> = None | Some(value: T) {
    function GetOr(default: T): T {
      match this
      case Some(v) => v
      case None => default
    }
  }

  /** The outcome of an operation that may throw. */
  datatype Result<+T, +E> = Ok(value: T) | Err(error: E)
}
