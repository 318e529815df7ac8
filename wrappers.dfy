/** Option and Result, used wherever the modelled Rust code returns an
    `Option` or aborts with a panic. */
module Wrappers {

  datatype Option<+T> = None | Some(value: T)

  datatype Result<+T, +E> = Ok(value: T) | Err(error: E)
}
