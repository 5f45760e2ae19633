/** Option and Result, used for JavaScript's `undefined` and for the errors the components throw. */
module Wrappers {

  datatype Option<+T> = None | Some(value: T) {

    /** The value inside Some, or `default` when None */
    function GetOr(default: T): T {
      match this
      case Some(v) => v
      case None => default
    }
  }

  /** The outcome of an operation that either returns a value or throws an error */
  datatype Result<+R, +E> = Success(value: R) | Failure(error: E)
}
