/** Failure-compatible wrappers used across the model: `Option` stands for
    a Go pointer that may be nil (`*string`) and for a `(value, err)` pair
    whose error is collapsed; `Result` stands for a value-or-error pair whose
    error matters. */
module Wrappers {

  datatype Option<+T> = None | Some(value: T)

  datatype Result<+T, +E> = Success(value: T) | Failure(error: E)
}
