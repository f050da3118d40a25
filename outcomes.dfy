/** The exceptions the transcriber catches, re-raises or lets escape. */
module Outcomes {

  /** A raised Python exception, identified by its message. */
  datatype Error = Error(message: string)

  /** An optional argument (Python's `None` or a value). */
  datatype Option<T> = None | Some(value: T)

  /** A call that either returns a value or raises. */
  datatype Result<T> = Ok(value: T) | Err(error: Error)
}
