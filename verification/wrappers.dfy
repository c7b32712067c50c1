/** Failure-compatible wrappers used across the model: `Option` for nullable
    columns and absent dictionary keys, `Result` for HTTP errors. */
module Wrappers {

  datatype Option<+T> = None | Some(value: T)

  datatype Result<+T, +E> = Ok(value: T) | Err(error: E)
}
