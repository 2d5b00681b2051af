/** Optional values and success-or-failure results used across the model. */
module Wrappers {

  /** A value that may be absent: a C# `null` reference or a TypeScript `undefined`. */
  datatype Option<+T> = None | Some(value: T)

  /** The outcome of an upstream HTTP call: a decoded body, or the non-success status
      code that makes `EnsureSuccessStatusCode` throw. */
  datatype Result<+T> = Success(value: T) | Failure(status: int)
}
