/** Optional values and results, standing in for JavaScript's `undefined`/`null`
    and for thrown errors. */
module Wrappers {

  /** `None` is an absent property or a `null` return. */
  datatype Option<+T> = None | Some(value: T) {

    /** The value if present, `default` otherwise. */
    function GetOr(default: T): T {
      match this
      case Some(v) => v
      case None => default
    }
  }

  /** `Failure` is a thrown error, `Success` a normal return. */
  datatype Result<+R, +E> = Success(value: R) | Failure(error: E)
}
