/** Option and Result values used throughout the model. */
module Wrappers {

  /** A value that may be absent: a missing page element, a missing environment variable. */
  datatype Option<+T> = None | Some(value: T) {

    /** The carried value, or `default` when there is none. */
    function GetOr(default: T): T {
      match this
      case Some(v) => v
      case None => default
    }
  }

  /** The outcome of an operation that either returns a value or raises with a message. */
  datatype Result<+T, +E> = Ok(value: T) | Err(error: E)
}
