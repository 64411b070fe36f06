/** Option and Result, the two failure-carrying types the rest of the model uses. */
module Wrappers {

  /** A value that may be absent: `undefined`/`null` in the TypeScript source. */
  datatype Option<+T> = None | Some(value: T) {

    /** The value, or `default` when absent (TypeScript's `??`). */
    function GetOr(default: T): T {
      match this
      case Some(v) => v
      case None => default
    }
  }

  /** The outcome of an operation that may throw: `Err` carries the exception. */
  datatype Result<+T, +E> = Ok(value: T) | Err(error: E)
}
