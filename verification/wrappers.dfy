/** Failure-carrying result types shared by every module of the model. */
module Wrappers {

  /** Rust's `Option`: an absent or a present value. */
  datatype Option<+T> = None | Some(value: T)

  /** Rust's `Result`: a value, or an error describing why there is none. */
  datatype Result<+T, +E> = Ok(value: T) | Err(error: E)
}
