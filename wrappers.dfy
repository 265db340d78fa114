/** The Option and Result values the model uses for JavaScript's null/undefined and for fatal errors. */
module Wrappers {

  /** `None` stands for null or undefined. */
  datatype Option<+T> = None | Some(value: T) {

    /** The value, or `default` when there is none (JavaScript's `??`). */
    function GetOr(default: T): T {
      match this
      case Some(v) => v
      case None => default
    }
  }

  /** A run that either produces a value or stops with an error. */
  datatype Result<+R, +E> = Ok(value: R) | Err(error: E)
}
