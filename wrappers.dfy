/** Option and Result for the Go code's nil checks and (value, error) returns. */
module Wrappers {

  datatype Option<+T> = None | Some(value: T)

  /** A Go `error` value; the model only passes it along and compares it. */
  datatype Error = Error(message: string)

  /** A Go `(value, error)` pair where exactly one side is meaningful. */
  datatype Result<+T> = Ok(value: T) | Err(error: Error)
}
