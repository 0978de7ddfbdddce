/** Failure-carrying result types shared by the whole model. */
module Wrappers {

  /** A value that may be absent. */
  datatype Option<+T> = None | Some(value: T)

  /** Either a computed value or the error that stopped the computation
      (the model's stand-in for a raised Python exception). */
  datatype Result<+T, +E> = Success(value: T) | Failure(error: E)
}
