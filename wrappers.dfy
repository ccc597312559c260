/** Option and Outcome, the two shapes every backend answer and every optional field takes. */
module Wrappers {

  /** A value that may be absent (JavaScript `null` or `undefined`). */
  datatype Option<+T> = None | Some(value: T) {
    function GetOr(default: T): T {
      match this
      case Some(v) => v
      case None => default
    }
  }

  /** The answer of one backend call: the call succeeded with a value, or it failed. */
  datatype Outcome<+T> = Success(value: T) | Failure
}
