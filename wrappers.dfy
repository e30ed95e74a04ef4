/** Optional values and results with an error, standing for Python's `None` and raised exceptions. */
module Wrappers {

  /** A value that may be absent (a parameter left as `None`). */
  datatype Option<+T> = None | Some(value: T)

  /** A computation that either returns a value or raises an error. */
  datatype Result<+T, +E> = Ok(value: T) | Err(error: E)
}
