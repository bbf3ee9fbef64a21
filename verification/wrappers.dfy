/** Values that may be missing or may carry an error. */
module Wrappers {

  /** A value that may be absent, such as the code a parser exits with. */
  datatype Option<T> = None | Some(value: T) {

    /** The value if present, and `fallback` if not. */
    function ValueOr(fallback: T): T {
      if Some? then value else fallback
    }
  }

  /** The outcome of a library function: a value, or the message of the
      `ValueError` it raised. */
  datatype Result<T, E> = Success(value: T) | Failure(error: E)
}
