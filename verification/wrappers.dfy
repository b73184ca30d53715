/** Option and Result values used wherever the modelled code returns None or raises. */
module Wrappers {

  /** A value that may be absent (Python's `None`). */
  datatype Option<+T> = None | Some(value: T) {

    /** The carried value, or `default` when absent. */
    function GetOr(default: T): T {
      match this
      case Some(v) => v
      case None => default
    }
  }

  /** Either a value or the error a Python `raise` would carry. */
  datatype Result<+T, +E> = Ok(value: T) | Err(error: E)
}
