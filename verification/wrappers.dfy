/** The optional value (Go's nil-or-value) and the value-or-error result (Go's
    `(T, error)` pair) used throughout the model. */
module Wrappers {

  datatype Option<+T> = None | Some(value: T)

  datatype Result<+R, +E> = Success(value: R) | Failure(error: E)
}
