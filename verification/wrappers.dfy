/** Failure-carrying wrappers shared by every module of the model. */
module Wrappers {

  /** A value that may be absent (a JavaScript `undefined`/`null` result). */
  datatype Option<+T> = None | Some(value: T)

  /** The outcome of a JavaScript call that either returns a value or throws an
      error whose `message` is carried by `Err`. */
  datatype Result<+T> = Ok(value: T) | Err(message: string)
}
