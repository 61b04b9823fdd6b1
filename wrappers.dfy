/** Option and Result: the model's stand-ins for pandas' NaN and for Python's exceptions. */
module Wrappers {

  /** A floating-point cell of a pandas column: `None` stands for NaN. */
  datatype Option<+T> = None | Some(value: T)

  /** The outcome of a callback that may raise: `Failure` carries the exception. */
  datatype Result<+T, +E> = Success(value: T) | Failure(error: E)
}
