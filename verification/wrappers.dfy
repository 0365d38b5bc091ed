/** Optional values and results with an error, used for Java nulls and exceptions. */
module Wrappers {
  /** A Java reference that may be null. */
  datatype Option<T> = None | Some(value: T)

  /** A computation that either returns a value or throws an exception described by `error`. */
  datatype Result<T, E> = Ok(value: T) | Err(error: E)
}
