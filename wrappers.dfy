/** Optional values and results with an error, as used throughout the model. */
module Wrappers {
  /** Kotlin's nullable `T?`. */
  datatype Option<+T> = None | Some(value: T)

  /** A computation that either succeeds with a value or fails with an error. */
  datatype Result<+R, +E> = Ok(value: R) | Err(error: E)
}
