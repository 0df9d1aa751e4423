/** Option and Result, the two wrappers the model uses for Go's nil pointers and error returns. */
module Wrappers {

  /** A value that may be absent: Go's nil pointer becomes None. */
  datatype Option<+T> = None | Some(value: T)

  /** The outcome of an operation that returns a Go `error`: Failure carries the non-nil error. */
  datatype Result<+R, +E> = Success(value: R) | Failure(error: E)
}
