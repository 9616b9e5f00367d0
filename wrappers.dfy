/** Failure-compatible wrappers used across the model: `Option` stands for a
    JavaScript value that may be `undefined`, `Result` for a step that either
    produces a value or an error message for the HTTP reply. */
module Wrappers {

  datatype Option<+T> = None | Some(value: T)

  datatype Result<+T> = Ok(value: T) | Err(error: string)
}
