/** Optional and failure-carrying values shared by the other modules. */
module Wrappers {

  /** `None` stands for JavaScript's `null`/`undefined`. */
  datatype Option<+T> = None | Some(value: T)

  /** The result of code that may throw. */
  datatype Result<+R, +E> = Success(value: R) | Failure(error: E)
}
