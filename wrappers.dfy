/** Optional values and results with an error, as the client's code uses
    `null`/`undefined` and thrown `Error`s. */
module Wrappers {

  /** A value that may be missing (`null` or `undefined` in the client). */
  datatype Option<+T> = None | Some(value: T)

  /** A JavaScript `Error`: only its message is observable to callers. */
  datatype Error = Error(message: string)

  /** The outcome of a promise: resolved with a value or rejected with an error. */
  datatype Result<+T> = Success(value: T) | Failure(error: Error)
}
