/** Failure-compatible return types shared by the whole model: `Option` for
    Rust's `Option<T>` and `Result` for Rust's `Result<T, E>`. */
module Wrappers {

  datatype Option<+T> = None | Some(value: T)

  datatype Result<+T, +E> = Success(value: T) | Failure(error: E)
}
