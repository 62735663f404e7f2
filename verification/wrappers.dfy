/** Failure-compatible wrappers used across the scanner model. */
module Wrappers {

  /** An optional value; stands for a Python value that may be `None`. */
  datatype Option<+T> = None | Some(value: T)

  /** The outcome of an operation that may be rejected with a message;
      `Failure` stands for a `ValueError` raised before any probing. */
  datatype Result<+R, +E> = Success(value: R) | Failure(error: E)
}
