/** Option and Result, the shapes in which the model returns Go's `nil` and `error` results. */
module Basics {

  datatype Option<+T> = None | Some(value: T)

  datatype Result<+T, +E> = Ok(value: T) | Err(error: E)
}
