/** The optional-value and result datatypes shared by the model's modules. */
module Wrappers {

  /** `None` stands for a JavaScript `undefined` or `null`. */
  datatype Option<+T> = None | Some(value: T)

  /** The outcome of an operation that may throw: its value, or the error thrown. */
  datatype Result<+R, +E> = Success(value: R) | Failure(error: E)
}
