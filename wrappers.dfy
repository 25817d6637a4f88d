/** Option and the error kinds raised by the extraction code. */
module Wrappers {

  datatype Option<+T> = None | Some(value: T)

  /** The exception classes the matcher loop catches (IndexError, StopIteration, ValueError). */
  datatype Error = ValueError | IndexError | StopIteration

  datatype Result<+T> = Ok(value: T) | Err(error: Error)
}
