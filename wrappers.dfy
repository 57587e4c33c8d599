/** Failure-carrying results, standing in for Go's `(value, error)` pairs and nil slices. */
module Wrappers {

  datatype Option<+T> = None | Some(value: T)

  datatype Result<+R, +E> = Success(value: R) | Failure(error: E)
}
