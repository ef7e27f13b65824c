/** Optional values and success/failure outcomes, used wherever the source
    works with a nullable value or throws. */
module Wrappers {

  datatype Option<+T> = None | Some(value: T)

  /** The outcome of an operation that either completes with a value or
      fails with an error (an exception in the source). */
  datatype Result<+R, +E> = Success(value: R) | Failure(error: E)
}
