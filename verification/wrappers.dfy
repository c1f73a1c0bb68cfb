/** Failure-compatible wrappers shared by every module of the model:
    Python's `None`-or-value becomes `Option`, and a call that may raise
    becomes a `Result` whose `Failure` carries the exception's meaning. */
module Wrappers {

  datatype Option<+T> = None | Some(value: T) {

    /** The value, or `default` when absent (Python's `x or default` for optional values). */
    function GetOr(default: T): T {
      match this
      case Some(v) => v
      case None => default
    }
  }

  datatype Result<+T, +E> = Success(value: T) | Failure(error: E)
}
