/** Optional values and results with an error message, as the rest of the model uses them. */
module Wrappers {

  /** A value that may be absent: JavaScript's `undefined`/`null`, Python's `None`. */
  datatype Option<+T> = None | Some(value: T) {
    function GetOr(default: T): T {
      match this
      case Some(v) => v
      case None => default
    }
  }

  /** The outcome of a call that may throw: the value, or the thrown error's message. */
  datatype Result<+R> = Success(value: R) | Failure(error: string)
}
