/** Option and Result, the failure-carrying datatypes the rest of the model returns. */
module Wrappers {

  /** A value that may be absent: PHP `null` versus a present value. */
  datatype Option<+T> = None | Some(value: T) {
    /** The value, or `default` when absent: PHP's `??` operator. */
    function GetOr(default: T): T {
      match this
      case Some(v) => v
      case None => default
    }
  }

  /** The outcome of an operation that throws in the source: a value or the error it raises. */
  datatype Result<+R, +E> = Success(value: R) | Failure(error: E)
}
