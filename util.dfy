/** Option and Result types shared by the model. */
module Util {

  /** An optional value: a YAML key that may be absent, a lookup that may miss. */
  datatype Option<+T> = None | Some(value: T)

  /** The outcome of an operation that returns a value or an error. */
  datatype Result<+T, +E> = Ok(value: T) | Err(error: E)

  /** The outcome of an operation that returns only an error (Go's `error`). */
  datatype Outcome<+E> = Pass | Fail(error: E)
}
