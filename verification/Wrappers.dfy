/** Failure-aware result types shared by every module of the model. */
module Wrappers {

  datatype Option<+T> = None | Some(value: T)

  datatype Result<+T, +E> = Ok(value: T) | Err(error: E)

  /** Rust's unit value, the success payload of an operation that returns nothing. */
  datatype Unit = Unit
}
