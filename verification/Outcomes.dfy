/** Result types shared by every module of the model. */
module Outcomes {
  datatype Option<+T> = None | Some(value: T)

  /** A Rust `Result`: the value of a call, or the error it returns. */
  datatype Result<+T, +E> = Ok(value: T) | Err(error: E)
}
