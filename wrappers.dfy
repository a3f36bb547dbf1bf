/** Option and Result: Java's nullable references and thrown exceptions, as values. */
module Wrappers {

  /** A value that may be absent: `None` stands for Java's `null`. */
  datatype Option<+T> = None | Some(value: T)

  /** The outcome of an operation that either returns a value or throws. */
  datatype Result<+R, +E> = Success(value: R) | Failure(error: E)
}
