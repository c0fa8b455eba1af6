/** Optional values and success/failure results shared by every stage of the pipeline. */
module Wrappers {

  /** A value that may be missing (the source's `None`). */
  datatype Option<+T> = None | Some(value: T)

  /** The outcome of a stage that either produces a value or stops with a failure. */
  datatype Result<+T, +E> = Success(value: T) | Failure(error: E)
}
