/** Failure-carrying values used where the Python code returns `None` or raises. */
module Wrappers {

  /** `None` stands for Python's `None` (or, where a function says so, for an exception). */
  datatype Option<+T> = None | Some(value: T) {
    function GetOr(default: T): T {
      match this
      case Some(v) => v
      case None => default
    }
  }

  /** A value, or the text of the exception that was raised instead. */
  datatype Result<+T> = Ok(value: T) | Err(error: string)
}
