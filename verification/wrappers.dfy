/** Failure-compatible wrappers shared by the model: `Option` stands for a C
    pointer that may be NULL, `Result` for a lookup that either yields a value
    or says why it failed. */
module Wrappers {

  datatype Option<+T> = None | Some(value: T) {

    /** The wrapped value, or `default` when there is none. */
    function GetOr(default: T): T {
      match this
      case Some(v) => v
      case None => default
    }
  }

  datatype Result<+R, +E> = Success(value: R) | Failure(error: E)
}
