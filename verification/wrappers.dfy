/** Option and Result, the failure-carrying values used across the model. */
module Wrappers {

  datatype Option<+T> = None | Some(value: T)

  /** An operation either succeeds with a value or is rejected with a reason. */
  datatype Result<+R, +E> = Ok(value: R) | Err(error: E)
}
