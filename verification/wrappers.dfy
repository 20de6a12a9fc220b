/** Optional values and results, standing in for Java's `null`/`Optional` and
    for exceptions raised out of a service call. */
module Wrappers {

  /** A value that may be absent (`null` or an empty `Optional`). */
  datatype Option<+T> = None | Some(value: T)

  /** Either a returned value or a raised exception carrying its message. */
  datatype Result<+R, +E> = Success(value: R) | Failure(error: E)
}
