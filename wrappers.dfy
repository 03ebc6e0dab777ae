/** Small failure-compatible helpers shared by the other modules. */
module Wrappers {

  /** The usual optional value. */
  datatype Option<+T> = None | Some(value: T)

  /** The outcome of an operation that can fail with an error description. */
  datatype Result<+T, +E> = Success(value: T) | Failure(error: E)
}
