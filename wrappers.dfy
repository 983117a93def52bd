/** Optional values and results with an error, as the rest of the model uses them. */
module Wrappers {

  datatype Option<+T> = None | Some(value: T) {
    /** The value, or `default` when absent (Python's `dict.get(key, default)`). */
    function GetOr(default: T): T {
      match this
      case Some(v) => v
      case None => default
    }
  }

  datatype Result<+R, +E> = Ok(value: R) | Err(error: E)
}

/** The Python exceptions the core can raise while it resolves a gesture. */
module Faults {

  datatype Fault =
    | ValueError         // unpacking a bounds list that does not have four entries
    | AttributeError     // calling `.get` on a `None` child
    | IndexError         // indexing into a bounds list that is too short
    | ZeroDivisionError  // normalising by a parent of zero width or height
}
