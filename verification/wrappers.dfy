/** Failure-compatible wrappers used across the model: `Option` for the
    JavaScript `null`/absent value, `Result` for an operation that can throw
    or reject its input. */
module Wrappers {

  datatype Option<+T> = None | Some(value: T) {

    /** The wrapped value, or `default` for `None`. */
    function GetOr(default: T): T {
      match this
      case Some(v) => v
      case None => default
    }
  }

  datatype Result<+R, +E> = Success(value: R) | Failure(error: E)
}
