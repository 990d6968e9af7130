/** Option and Result, the two failure-carrying shapes used by every module. */
module Wrappers {

  /** A value that may be absent: Python's `Optional[...]` / `None`. */
  datatype Option<+T> = None | Some(value: T) {

    /** The value if present, otherwise `default`. */
    function GetOr(default: T): T {
      match this
      case Some(v) => v
      case None => default
    }
  }

  /** The outcome of a handler: a value, or the error it raises or reports. */
  datatype Result<+T, +E> = Ok(value: T) | Err(error: E)
}
