/** Failure-carrying values for the two devotional scripts, whose errors are
    Python exceptions whose text (`str(e)`) ends up in the output file. */
module Outcomes {

  datatype Option<+T> = None | Some(value: T)

  /** A step that either completed or raised an exception with a message. */
  datatype Outcome = Pass | Fail(error: string)

  /** A value, or the message of the exception raised instead. */
  datatype Result<+T> = Ok(value: T) | Err(error: string)
}
