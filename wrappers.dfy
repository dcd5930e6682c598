/** Option and Result: absence of a value, and an operation that may raise. */
module Wrappers {

  datatype Option<+T> = None | Some(value: T)

  /** `Err` stands for a Python exception raised by the operation. */
  datatype Result<+T, +E> = Ok(value: T) | Err(error: E)
}
