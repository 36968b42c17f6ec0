/** Failure-carrying result types shared by the tokenizer and the token stream. */
module Wrappers {

  /** An optional value: Python's `None` versus a present value. */
  datatype Option<+T> = None | Some(value: T)

  /** A value, or the error that the source would raise instead of returning it. */
  datatype Result<+R, +E> = Ok(value: R) | Err(error: E)
}
