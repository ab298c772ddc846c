/** Failure-carrying values shared by the modules of this model. */
module Wrappers {

  datatype Option<+T> = None | Some(value: T)

  /** Rust's `Result<T, E>`. */
  datatype Result<+T, +E> = Success(value: T) | Failure(error: E)

  /** What a Rust call does: it returns a value, or it panics (an `unwrap` that failed, an index out of range). */
  datatype Outcome<+T> = Returned(value: T) | Panicked
}
