/** Option and Result values used for JavaScript's `undefined`/`NaN` and thrown errors. */
module Wrappers {

  datatype Option<+T> = None | Some(value: T) {
    function GetOr(default: T): T {
      match this
      case Some(v) => v
      case None => default
    }
  }

  /** A computation that either returns a value or throws an error with a message. */
  datatype Result<+R> = Success(value: R) | Failure(error: string)
}
