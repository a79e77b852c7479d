/** Option and Result, the shapes of Rust's `Option` and `anyhow::Result` used
    throughout the model.  An error carries the message the source attaches. */
module Wrappers {

  datatype Option<T> = None | Some(value: T)

  datatype Result<T> = Ok(value: T) | Err(msg: string)
}
