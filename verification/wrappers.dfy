/** Optional values and success-or-error results, shared by every module of the model. */
module Wrappers {

  /** An optional value: JavaScript's `undefined` becomes `None`. */
  datatype Option<+T> = None | Some(value: T) {

    /** The wrapped value, or `default` when there is none. */
    function GetOr(default: T): T {
      match this
      case Some(v) => v
      case None => default
    }
  }

  /** A value or an error; the page code's `try`/`catch` paths become `Failure`. */
  datatype Result<+R, +E> = Success(value: R) | Failure(error: E)
}
