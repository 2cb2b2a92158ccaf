/** Option and Result values used where the Python code returns `None` or raises. */
module Wrappers {

  datatype Option<+T> = None | Some(value: T)

  /** The outcome of an operation that may raise: `Err` carries the exception's meaning. */
  datatype Result<+T, +E> = Ok(value: T) | Err(error: E)
}
