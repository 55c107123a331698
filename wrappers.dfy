/** Option and Result, the shapes the service's "missing value" and "raised an exception" cases take. */
module Wrappers {

  datatype Option<+T> = None | Some(value: T) {
    /** The value, or `default` when absent (Python's `dict.get(key, default)`). */
    function GetOr(default: T): T {
      match this
      case Some(v) => v
      case None => default
    }
  }

  /** Success carries a value; Failure carries the text of the exception that was raised. */
  datatype Result<+R, +E> = Success(value: R) | Failure(error: E)
}
