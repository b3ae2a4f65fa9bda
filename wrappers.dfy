/** Optional values and results with an error, as the JavaScript code uses
    `undefined` and thrown errors. */
module Wrappers {

  /** A value that may be absent (`undefined` in the source). */
  datatype Option<+T> = None | Some(value: T) {
    /** The value, or `default` when absent. */
    function GetOr(default: T): T {
      if Some? then value else default
    }
  }

  /** The outcome of an operation that either returns or throws. */
  datatype Result<+T, +E> = Success(value: T) | Failure(error: E)
}
