/** Option, Result and Outcome: the values that stand for Java's null and exceptions. */
module Wrappers {

  /** A value that may be absent: `None` is Java's `null`. */
  datatype Option<T> = None | Some(value: T)

  /** The result of an operation that either returns a value or throws. */
  datatype Result<T, E> = Ok(value: T) | Err(error: E)

  /** The result of a `void` operation that either returns or throws. */
  datatype Outcome<E> = Pass | Fail(error: E)
}
