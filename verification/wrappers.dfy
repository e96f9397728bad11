/** Optional values and error returns shared by the dataloader utilities. */
module Wrappers {

  /** Python's `None` or a present value. */
  datatype Option<+T> = None | Some(value: T)

  /** A computed value, or the reason the Python code raises instead. */
  datatype Result<+T, +E> = Success(value: T) | Failure(error: E)
}
