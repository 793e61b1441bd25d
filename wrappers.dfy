/** Option and Result, the two failure-carrying datatypes the model uses. */
module Wrappers {

  datatype Option<+T> = None | Some(value: T)

  /** The outcome of a step that can raise: `Err` is the exception that ends the run. */
  datatype Result<+T, +E> = Ok(value: T) | Err(error: E)
}
