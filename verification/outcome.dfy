/** Failure-carrying results used across the model. */
module Outcome {

  datatype Option<+T> = None | Some(value: T)

  /** The value of an operation, or the error that ended it. */
  datatype Result<+T, +E> = Ok(value: T) | Err(error: E)
}
