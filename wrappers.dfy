/** Optional values and results, the shapes the storefront uses for
    "null / not found" and for operations that can fail with a message. */
module Wrappers {

  datatype Option<+T> = None | Some(value: T) {
    /** The wrapped value, or `default` when there is none (JavaScript's `x || default`
        on a value that is either present or null). */
    function GetOr(default: T): T {
      match this
      case Some(v) => v
      case None => default
    }
  }

  datatype Result<+R, +E> = Success(value: R) | Failure(error: E)
}
