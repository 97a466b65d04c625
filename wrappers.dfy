/** Failure-carrying result types used by the bot's handlers. */
module Wrappers {

  datatype Option<+T> = None | Some(value: T)

  /** A value, or the message of the error the handler raises instead. */
  datatype Result<+T> = Ok(value: T) | Err(message: string)
}
