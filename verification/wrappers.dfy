/** Option and Result, the failure-carrying datatypes the rest of the model uses
    for JavaScript's `undefined` / `null` and for thrown errors. */
module Wrappers {

  /** `None` stands for JavaScript's `undefined` (or `null`). */
  datatype Option<+T> = None | Some(value: T) {

    /** The value, or `default` when absent (JavaScript's `x ?? default`). */
    function GetOr(default: T): T {
      match this
      case Some(v) => v
      case None => default
    }
  }

  /** `Failure` stands for an exception the source throws, with its message. */
  datatype Result<+R, +E> = Success(value: R) | Failure(error: E)
}
