/** Optional values and the outcome of an operation that may raise. */
module Wrappers {

  datatype Option<T> = None | Some(value: T)

  /** A value, or an exception (its kind is not needed here). */
  datatype Result<T> = Ok(value: T) | Err
}
