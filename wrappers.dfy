/** The Option and Result datatypes shared by the other modules. */
module Wrappers {

  datatype Option<+T> = None | Some(value: T)

  /** The outcome of a step that may throw: a value, or the thrown error's text. */
  datatype Result<+R, +E> = Success(value: R) | Failure(error: E)
}
