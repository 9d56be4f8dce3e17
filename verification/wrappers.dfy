/** Optional values and success/failure results, used for the nullable columns
    of the data model and for the outcome of a fetch. */
module Wrappers {

  /** A value that may be absent: `null` in a database column, `NaN` after a parse. */
  datatype Option<T> = None | Some(value: T) {

    /** The value, or `default` when absent (the `x || 0` idiom on a nullable count). */
    function GetOr(default: T): T {
      match this
      case Some(v) => v
      case None => default
    }
  }

  /** The outcome of an operation that can fail with an error of type `E`. */
  datatype Result<R, E> = Success(value: R) | Failure(error: E)
}
