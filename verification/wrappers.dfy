/** Failure-carrying datatypes shared by the storage model. */
module Wrappers {

  /** A value that may be absent (the source's `null` / `Nullable<T>`). */
  datatype Option<+T> = None | Some(value: T)

  /** A computation that either yields a value or fails with an error (the source throws). */
  datatype Result<+R, +E> = Success(value: R) | Failure(error: E)

  /** A computation with no value that either passes or fails with an error. */
  datatype Outcome<+E> = Pass | Fail(error: E)
}
