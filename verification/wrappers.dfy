/**
 Failure-carrying datatypes shared by every module of the model, and the one
 exception class the modelled Python code raises on its error paths.
 */
module Wrappers {

  /** Python's `None` versus a present value. */
  datatype Option<+T> = None | Some(value: T) {

    /** The value if present, otherwise `default` (Python's `x if x is not None else d`). */
    function GetOr(default: T): T {
      match this
      case Some(v) => v
      case None => default
    }
  }

  /** The outcome of a call that either returns a value or raises. */
  datatype Result<+R, +E> = Success(value: R) | Failure(error: E)

  /** The exceptions the modelled code raises towards its callers. */
  datatype PyError = ValueError(message: string)
}
