/** `Option` and `Result` types used across the model. */
module Wrappers {

  /** A value that may be missing; PHP's `null` return. */
  datatype Option<+T> = None | Some(value: T) {

    /** The value, or `default` when there is none. */
    function GetOr(default: T): T {
      match this
      case Some(v) => v
      case None => default
    }

    /** The value as a sequence of zero or one elements. */
    function ToSeq(): seq<T> {
      match this
      case Some(v) => [v]
      case None => []
    }
  }

  /** Either a value or an error; a thrown `RuntimeException` becomes `Failure`. */
  datatype Result<+R, +E> = Success(value: R) | Failure(error: E)
}
