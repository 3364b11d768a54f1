/** Optional values and success/failure results, the Dafny stand-ins for
    Python's `None` and for an exception that aborts an operation. */
module Options {

  /** A value that may be missing (`None` in the source). */
  datatype Option<+T> = None | Some(value: T) {

    /** The carried value, or `default` when there is none. */
    function GetOr(default: T): T {
      match this
      case Some(v) => v
      case None => default
    }
  }

  /** The outcome of an operation that may raise. */
  datatype Result<+T, +E> = Success(value: T) | Failure(error: E)
}
