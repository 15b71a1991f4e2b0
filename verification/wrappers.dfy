/** Python's `None`-or-value and value-or-exception, as datatypes. */
module Wrappers {

  /** A value that may be Python's `None`. */
  datatype Option<+T> = None | Some(value: T) {

    /** The wrapped value, or `default` for `None`. */
    function GetOr(default: T): T {
      match this
      case Some(v) => v
      case None => default
    }
  }

  /** The outcome of a Python call that either returns a value or raises. */
  datatype Result<+T, +E> = Success(value: T) | Failure(error: E)
}
