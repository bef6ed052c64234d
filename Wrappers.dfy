/** Optional values and results with an error, used for Python's `None` and for raised errors. */
module Wrappers {

  /** A value that may be absent: Python's `None`, or a key missing from a JSON object. */
  datatype Option<+T> = None | Some(value: T) {

    /** The value, or `default` when absent (Python's `d.get(key, default)`). */
    function GetOr(default: T): T {
      match this
      case Some(v) => v
      case None => default
    }
  }

  /** The outcome of an operation that either succeeds or raises an error. */
  datatype Result<+R, +E> = Ok(value: R) | Err(error: E)
}
