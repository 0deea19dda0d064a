/** Failure-compatible wrappers shared by every module of the model. */
module Wrappers {

  /** A value that may be absent: Python's `None` versus a present value. */
  datatype Option<+T> = None | Some(value: T)

  /** The outcome of an operation that either yields a value or reports an error. */
  datatype Result<+T, +E> = Success(value: T) | Failure(error: E)

  /** What a call into a library did: it raised an exception with a message, or it returned a value. */
  datatype Outcome<+T> = Raised(message: string) | Returned(value: T)
}
