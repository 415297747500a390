/** Failure-compatible wrappers shared by every module of the model. */
module Wrappers {

  /** A value that may be absent: a JavaScript `null`/`undefined`, or a `NaN` where a number is meant. */
  datatype Option<+T> = None | Some(value: T)

  /** The outcome of an operation that may throw. */
  datatype Result<+T> = Success(value: T) | Failure(error: string)
}
