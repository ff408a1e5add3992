/** Optional values and error-carrying results, shared by the other modules. */
module Wrappers {

  /** A value that may be absent: Python's `Optional[T]`, where `None` is `None`. */
  datatype Option<+T> = None | Some(value: T) {

    /** The value, or `default` when absent. */
    function GetOr(default: T): T {
      match this
      case Some(v) => v
      case None => default
    }
  }

  /** The outcome of an endpoint: a response, or the HTTP error it raises. */
  datatype Result<+R, +E> = Success(value: R) | Failure(error: E)
}
