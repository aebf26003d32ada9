/** Option and Result values shared by the models of the three scripts. */
module Wrappers {

  /** A cell or value that may be absent; `None` stands for a NaN cell. */
  datatype Option<+T> = None | Some(value: T)

  /** The outcome of an operation that may raise an error. */
  datatype Result<+T, +E> = Ok(value: T) | Err(error: E)
}
