/** Optional values and success-or-error results, the shapes every ledger
    lookup and operation returns. */
module Wrappers {

  /** A lookup that may find nothing (the source's `None`). */
  datatype Option<+T> = None | Some(value: T)

  /** Either the value an operation produces or the error it raised. */
  datatype Result<+R, +E> = Success(value: R) | Failure(error: E)
}
