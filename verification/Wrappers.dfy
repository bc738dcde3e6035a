/** Optional values and outcomes shared by the other modules. */
module Wrappers {
  /** A value that may be missing: `null`, `undefined` and Python's `None` all read as `None`. */
  datatype Option<+T> = None | Some(value: T)

  /** A call that returns a value or raises. */
  datatype Result<+T, +E> = Ok(value: T) | Err(error: E)
}
