/** Optional values and fallible results shared by the backend and console models. */
module Wrappers {

  /** A value that may be absent: a nullable field, a failed `os.Stat`, a missing row. */
  datatype Option<+T> = None | Some(value: T) {

    /** The carried value, or `default` when there is none. */
    function GetOr(default: T): T {
      match this
      case Some(v) => v
      case None => default
    }
  }

  /** The outcome of a handler or store operation that can fail. */
  datatype Result<+T, +E> = Ok(value: T) | Err(error: E)
}
