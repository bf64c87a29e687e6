/** Option and Result, the two shapes in which the CLI reports "nothing found" and thrown errors. */
module Wrappers {

  datatype Option<+T> = None | Some(value: T)

  /** A value, or the message of the error the source would throw. */
  datatype Result<+T> = Success(value: T) | Failure(error: string)

  /** The result of an operation that only succeeds or throws. */
  datatype Status = Done | Error(message: string)
}
