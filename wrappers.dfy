/** Option, Result and Outcome: the shapes of the handlers' replies. */
module Wrappers {

  /** A value that may be absent (Python's `None`). */
  datatype Option<+T> = None | Some(value: T) {
    /** The wrapped value, or `default` when absent. */
    function GetOr(default: T): T {
      match this
      case Some(v) => v
      case None => default
    }
  }

  /** A reply that either carries a value or an error (a raised `HTTPException`). */
  datatype Result<+T, +E> = Ok(value: T) | Err(error: E)

  /** A reply that carries no value on success. */
  datatype Outcome<+E> = Pass | Fail(error: E)
}
