/** Option and Result, the two failure-carrying shapes the model needs. */
module Wrappers {

  /** Rust's `Option<T>`. */
  datatype Option<+T> = None | Some(value: T)

  /** Rust's `Result<T, E>`, with the error reduced to its message. */
  datatype Result<+T, +E> = Success(value: T) | Failure(error: E)
}
