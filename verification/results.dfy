/** Failure-carrying return values, standing in for Go's `(value, error)` pairs. */
module Results {

  /** A value that may be absent, as a Go result that may be nil. */
  datatype Option<+T> = None | Some(value: T)

  /** The outcome of a decoder: the decoded value, or the error it reported. */
  datatype Result<+T, +E> = Success(value: T) | Failure(error: E)
}
