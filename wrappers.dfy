/** Option and Result types for the resolver's optional values and error
    returns. */
module Wrappers {

  datatype Option<+T> = None | Some(value: T)

  /** A value, or the error that prevented computing it. */
  datatype Result<+R, +E> = Success(value: R) | Failure(error: E)
}
