/** Optional values and success/failure results shared by every module. */
module Wrappers {

  /** A value that may be absent: a missing JSON field, a null column, an unset variable. */
  datatype Option<+T> = None | Some(value: T)

  /** The outcome of an operation that may fail with an error value. */
  datatype Result<+R, +E> = Ok(value: R) | Err(error: E)
}
