/** Option and Result, the two failure-carrying datatypes the model returns
    in place of Ruby's nil and raised exceptions. */
module Wrappers {

  /** Some value, or nothing (Ruby's nil, or an undefined number). */
  datatype Option<+T> = None | Some(value: T)

  /** A value, or the error that stopped the computation. */
  datatype Result<+T, +E> = Ok(value: T) | Err(error: E)
}
