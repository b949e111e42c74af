/** Failure-compatible wrappers used across the model: an optional value and a
    success-or-error result (Python's "return None" and "raise"). */
module Wrappers {

  datatype Option<+T> = None | Some(value: T)

  datatype Result<+T, +E> = Success(value: T) | Failure(error: E)
}
