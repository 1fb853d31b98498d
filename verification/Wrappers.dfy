/** The two result types the other modules share. */
module Wrappers {

  /** A value that may be absent: a missing row, a nil error. */
  datatype Option<+T> = None | Some(value: T)

  /** A value or the error that was returned in its place. */
  datatype Result<+T, +E> = Success(value: T) | Failure(error: E)
}
