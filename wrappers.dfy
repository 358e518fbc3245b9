/** Optional values and results with an error, as the routes return them. */
module Wrappers {

  /** A value that may be absent: JavaScript's `undefined` or `null`. */
  datatype Option<+T> = None | Some(value: T) {
    function GetOr(default: T): T {
      match this
      case Some(v) => v
      case None => default
    }
  }

  /** The outcome of an external call or a validation. */
  datatype Result<+R, +E> = Success(value: R) | Failure(error: E)
}
