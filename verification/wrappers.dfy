/** Option and Result, the failure-carrying datatypes every handler returns. */
module Wrappers {

  /** A value that may be absent; `None` stands for a JavaScript `null`. */
  datatype Option<+T> = None | Some(value: T) {

    /** The wrapped value, or `default` when absent. */
    function GetOr(default: T): T {
      match this
      case Some(v) => v
      case None => default
    }
  }

  /** Either a value or the error a handler raised. */
  datatype Result<+T, +E> = Ok(value: T) | Err(error: E)
}
