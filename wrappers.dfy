/** Option and Result datatypes shared by the summarisation model. */
module Wrappers {

  /** A value that may be absent: JavaScript's `undefined`/`null` in the source. */
  datatype Option<+T> = None | Some(value: T) {

    /** The carried value, or `default` when there is none. */
    function GetOr(default: T): T {
      match this
      case Some(v) => v
      case None => default
    }
  }

  /** The outcome of an operation that either returns a value or throws an error message. */
  datatype Result<+R, +E> = Success(value: R) | Failure(error: E)
}
