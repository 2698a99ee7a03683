/** Optional values and accept/reject outcomes used across the ledger model. */
module Wrappers {

  /** A value that may be absent: the source's `null` results. */
  datatype Option<+T> = None | Some(value: T)

  /** The outcome of a form submission or a validation: a value, or the error shown to the user. */
  datatype Result<+R, +E> = Success(value: R) | Failure(error: E)
}
