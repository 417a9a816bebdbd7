/** Option and Result, the two failure-compatible wrappers the rest of the model uses. */
module Wrappers {

  /** A value that may be absent: JavaScript's `undefined`/`null` for an optional argument or property. */
  datatype Option<+T> = None | Some(value: T) {
    function GetOr(default: T): T {
      match this
      case Some(v) => v
      case None => default
    }
  }

  /** The outcome of an operation that either returns a value or throws an error object. */
  datatype Result<+R, +E> = Success(value: R) | Failure(error: E)

  /** A thrown JavaScript error: its constructor name (`Error`, `TypeError`, ...) and its message. */
  datatype Exception = Exception(name: string, message: string)
}
