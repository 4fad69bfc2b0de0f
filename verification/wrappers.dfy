/** Failure-carrying datatypes shared by the other modules. */
module Wrappers {

  /** A JavaScript value that may be `null`/`undefined` (None) or present (Some). */
  datatype Option<+T> = None | Some(value: T)

  /** The outcome of an operation that may throw: a value or the reason it failed. */
  datatype Result<+T, +E> = Ok(value: T) | Err(error: E)
}
