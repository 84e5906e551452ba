/** Optional values and results with an error, as the repository's promises
    return them (`undefined | Account`, a thrown exception, `void`). */
module Wrappers {

  /** A value that may be absent (`undefined` in the source). */
  datatype Option<+T> = None | Some(value: T)

  /** A value, or the reason the operation failed. */
  datatype Result<+T, +E> = Success(value: T) | Failure(error: E)

  /** Success without a value, or the reason the operation failed. */
  datatype Outcome<+E> = Pass | Fail(error: E)
}
