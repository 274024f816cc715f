/** Failure-carrying result types: the model's stand-in for null references and thrown exceptions. */
module Wrappers {

  /** A value or its absence (a C# null reference). */
  datatype Option<+T> = None | Some(value: T)

  /** The value an operation returns, or the error it raises. */
  datatype Result<+T, +E> = Success(value: T) | Failure(error: E)

  /** Completion of an operation that returns nothing, or the error it raises. */
  datatype Outcome<+E> = Pass | Fail(error: E)
}
