/** The two result shapes the rest of the project shares. */
module Wrappers {

  /** A value that may be absent: Go's nil pointer, or the `ok` of a two-valued read. */
  datatype Option<+T> = None | Some(value: T)

  /** A value or the reason there is none: Go's `(value, error)` pair. */
  datatype Result<+T> = Ok(result: T) | Err(reason: string)
}
