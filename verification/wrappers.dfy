/** Option and Result, the two failure-carrying datatypes the model needs. */
module Wrappers {

  /** A value that may be absent: the model's stand-in for pandas' NaN / Python's None. */
  datatype Option<+T> = None | Some(value: T)

  /** The outcome of an operation that can raise. */
  datatype Result<+R, +E> = Success(value: R) | Failure(error: E)
}
