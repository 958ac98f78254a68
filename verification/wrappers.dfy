/** Optional values and success-or-error results, shared by the whole model. */
module Wrappers {

  /** A value that may be missing. Also used for Python's float NaN: `None`
      stands for NaN, `Some(r)` for an ordinary number. */
  datatype Option<+T> = None | Some(value: T)

  /** The outcome of an operation that can raise. */
  datatype Result<+R, +E> = Success(value: R) | Failure(error: E)
}
