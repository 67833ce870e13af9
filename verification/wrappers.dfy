/** Option and Result, used for pandas' missing values and for raised exceptions. */
module Wrappers {

  datatype Option<+T> = None | Some(value: T)

  /** The outcome of a call that either returns `value` or raises with message `error`. */
  datatype Result<+R, +E> = Success(value: R) | Failure(error: E)
}
