/** Failure-carrying datatypes shared by the menu modules. */
module Wrappers {

  /** A value that may be absent: an omitted query parameter or body field,
      or a description generator that failed. */
  datatype Option<+T> = None | Some(value: T) {

    /** The carried value, or `default` when absent. */
    function GetOr(default: T): T {
      match this
      case Some(v) => v
      case None => default
    }
  }

  /** The outcome of a handler: a value, or one of the errors it reports. */
  datatype Result<+R, +E> = Success(value: R) | Failure(error: E)
}
