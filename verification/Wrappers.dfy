/** Success or failure values standing for the exceptions of the C++ code. */
module Wrappers {

  datatype Option<+T> = None | Some(value: T)

  datatype Result<+T, +E> = Success(value: T) | Failure(error: E)

  /** The result of a call that returns nothing but may throw. */
  datatype Outcome<+E> = Pass | Fail(error: E)
}
