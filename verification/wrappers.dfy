/** Option and Result types shared by every module of the model. */
module Wrappers {

  /** A value that may be absent (Python `None`, a missing key, a NaT timestamp). */
  datatype Option<+T> = None | Some(value: T) {

    /** The wrapped value, or `default` when absent. */
    function GetOr(default: T): T {
      match this
      case Some(v) => v
      case None => default
    }
  }

  /** The outcome of an operation that the source lets raise an exception. */
  datatype Result<+T> = Success(value: T) | Failure(error: string)
}
