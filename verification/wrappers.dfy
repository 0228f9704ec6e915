/** Values for what the game leaves absent (a missing attribute) and for what it throws. */
module Wrappers {

  /** A value that may be missing, such as an attribute `getAttribute` reports as null. */
  datatype Option<+T> = None | Some(value: T)

  /** The outcome of an operation that either returns a value or throws an `Error` with a message. */
  datatype Result<+T> = Ok(value: T) | Fail(message: string)
}
