/** Failure-carrying datatypes shared by the model: `Option` for values that
    may be absent (Rust's `Option`) and `Result` for operations that can fail
    (Rust's `Result` / `anyhow::Result`). */
module Wrappers {

  datatype Option<+T> = None | Some(value: T)

  datatype Result<+T, +E> = Success(value: T) | Failure(error: E)
}
