/** Failure-compatible wrappers used across the model. */
module Wrappers {

  datatype Option<+T> = None | Some(value: T) {
    /** The value, or `default` when absent (JavaScript's `x || default` on an object). */
    function GetOr(default: T): T {
      match this
      case Some(v) => v
      case None => default
    }
  }

  /** A computation that either yields a value or faults. */
  datatype Result<+T, +E> = Ok(value: T) | Err(error: E)

  /** A statement that either completes or faults. */
  datatype Outcome<+E> = Pass | Fail(error: E)
}
