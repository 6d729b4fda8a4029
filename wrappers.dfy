/** Option and Result, the two failure-carrying values every other module uses. */
module Wrappers {

  datatype Option<+T> = None | Some(value: T)

  /** The value of a call that either succeeds or raises one of the source's errors. */
  datatype Result<+R, +E> = Success(value: R) | Failure(error: E)
}
