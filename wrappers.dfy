/** Option and Result, standing for TypeScript's `T | null` / `T | undefined`
    and for exceptions that a call can throw. */
module Wrappers {

  datatype Option<+T> = None | Some(value: T) {
    /** `x ?? d`: the value when present, the default otherwise. */
    function GetOr(default: T): T {
      match this
      case Some(v) => v
      case None => default
    }

    /** `x ?? y` between two optional values. */
    function OrElse(other: Option<T>): Option<T> {
      match this
      case Some(_) => this
      case None => other
    }
  }

  datatype Result<+R, +E> = Success(value: R) | Failure(error: E)
}
