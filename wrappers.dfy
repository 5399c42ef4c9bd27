/** Failure-compatible wrappers shared by the modules of the note board model. */
module Wrappers {

  /** A value that may be absent: JavaScript's `undefined`/`null` beside a value. */
  datatype Option<+T> = None | Some(value: T) {
    /** The value, or `default` when there is none (JavaScript's `x ?? default`). */
    function GetOr(default: T): T {
      match this
      case Some(v) => v
      case None => default
    }
  }

  /** The outcome of a call that returns a value or raises an error. */
  datatype Result<+T, +E> = Ok(value: T) | Err(error: E)

  /** The outcome of a call that returns nothing or raises an error. */
  datatype Outcome<+E> = Pass | Fail(error: E)
}
