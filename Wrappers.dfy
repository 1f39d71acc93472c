/** Failure-carrying values used across the model. */
module Wrappers {

  datatype Option<+T> = None | Some(value: T)

  datatype Result<+R, +E> = Ok(value: R) | Err(error: E)

  /** The outcome of an operation that produces no value, such as `Result<()>` in Rust. */
  datatype Outcome<+E> = Pass | Fail(error: E)
}
