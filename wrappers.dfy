/** Option and Result: Ruby's nil and raised errors, made explicit. */
module Wrappers {

  /** A value that may be absent (Ruby's nil). */
  datatype Option<+T> = None | Some(value: T)

  /** Either a value or the error the Ruby code would raise. */
  datatype Result<+T, +E> = Ok(value: T) | Err(error: E)
}
