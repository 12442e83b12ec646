/** Failure-compatible containers shared by the other modules. */
module Wrappers {

  /** A value that may be absent. */
  datatype Option<+T> = None | Some(value: T)

  /** The outcome of an operation that may refuse its input. */
  datatype Result<+T, +E> = Success(value: T) | Failure(error: E)
}
