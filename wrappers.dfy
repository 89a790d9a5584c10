/** Optional values and results, standing for Python's `None` and for exceptions. */
module Wrappers {

  datatype Option<+T> = None | Some(value: T)

  /** `Err` carries the exception that Python would raise. */
  datatype Result<+T, +E> = Ok(value: T) | Err(error: E)
}
