/** Optional values and results with an error, shared by the other modules. */
module Wrappers {

  /** A value that may be absent (TypeScript's `T | null`). */
  datatype Option<+T> = None | Some(value: T)

  /** The outcome of an operation that can fail (a resolved or a rejected promise). */
  datatype Result<+R, +E> = Success(value: R) | Failure(error: E)
}
