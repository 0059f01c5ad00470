/** Failure-carrying wrappers used for the repository's nullable values and thrown exceptions. */
module Wrappers {

  /** A value that may be absent (a C# `null` or a missing BSON element). */
  datatype Option<+T> = None | Some(value: T)

  /** The result of an operation that either returns a value or throws. */
  datatype Result<+R, +E> = Success(value: R) | Failure(error: E)

  /** The result of a `void` operation that either completes or throws. */
  datatype Outcome<+E> = Pass | Fail(error: E)
}
