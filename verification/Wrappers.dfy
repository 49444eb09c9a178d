/** Option and Result, shared by every module of the model. */
module Wrappers {

  datatype Option<+T> = None | Some(value: T)

  /** An `Err` stands for a Python exception; `error` says which one. */
  datatype Result<+T, +E> = Ok(value: T) | Err(error: E)
}
