/** Optional values and success/failure results, standing in for Go's nil
    pointers, nil slices and (value, error) return pairs. */
module Wrappers {

  /** `None` plays the role of a nil pointer or a nil error. */
  datatype Option<+T> = None | Some(value: T) {

    /** The wrapped value, or `default` when there is none. */
    function GetOr(default: T): T {
      match this
      case Some(v) => v
      case None => default
    }
  }

  /** A Go `(value, error)` pair in which exactly one side is meaningful. */
  datatype Result<+R, +E> = Success(value: R) | Failure(error: E)
}
