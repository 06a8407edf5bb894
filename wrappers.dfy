/** Optional values and error results shared by the other modules. */
module Wrappers {

  /** Swift's `Optional`: a value that may be absent. */
  datatype Option<+T> = None | Some(value: T)

  /** The outcome of a call that may throw: a value, or the error it throws. */
  datatype Result<+T, +E> = Ok(value: T) | Err(error: E)
}
