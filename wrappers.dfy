/** Option and Result, used for values that may be missing (JavaScript's
    `undefined`) and for the one operation of the core that throws. */
module Wrappers {

  datatype Option<+T> = None | Some(value: T)

  /** Either a value or the message of the error that was thrown. */
  datatype Result<+T> = Ok(value: T) | Err(message: string)
}
