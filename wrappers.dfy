/** Failure-carrying values shared by every module of the model. */
module Wrappers {

  /** A value that may be missing: an optional field, an unknown entry. */
  datatype Option<+T> = None | Some(value: T)

  /** A computation that either produces a value or fails with an error. */
  datatype Result<+T, +E> = Ok(value: T) | Err(error: E)

  /** A state change that either takes effect or is rejected with an error. */
  datatype Outcome<+E> = Pass | Fail(error: E)
}
