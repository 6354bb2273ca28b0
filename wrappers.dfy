/** Optional values and error-carrying results shared by the other modules. */
module Wrappers {

  /** `undefined`-or-a-value, as in a JavaScript optional property. */
  datatype Option<+T> = None | Some(value: T)

  /** The outcome of an operation that can throw. */
  datatype Result<+R, +E> = Success(value: R) | Failure(error: E)
}
