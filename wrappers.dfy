/** Failure-compatible wrappers that stand for Java's null references and exceptions. */
module Wrappers {

  /** A Java reference that may be null: `None` is null. */
  datatype Option<+T> = None | Some(value: T)

  /** The outcome of a Java call that returns a value or throws. */
  datatype Result<+T, +E> = Success(value: T) | Failure(error: E)

  /** The outcome of a Java `void` call: it returns, or it throws. */
  datatype Outcome<+E> = Pass | Fail(error: E)
}
