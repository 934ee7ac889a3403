/** Failure-carrying values used by every handler: an optional value and a
    success-or-error result (Rust's `Option` and `Result`). */
module Wrappers {

  datatype Option<+T> = None | Some(value: T)

  datatype Result<+T, +E> = Ok(value: T) | Err(error: E)
}
