/** Optional values and success/failure results shared by every module of the model. */
module Wrappers {

  /** A value that may be absent; stands for `undefined` / `null` in the modelled code. */
  datatype Option<+T> = None | Some(value: T)

  /** The outcome of an operation that either returns a value or throws an error. */
  datatype Result<+R, +E> = Success(value: R) | Failure(error: E)
}
