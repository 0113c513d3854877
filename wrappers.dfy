/** Option and Result, used for JavaScript's NaN and for the error paths of the generator. */
module Wrappers {

  /** `None` stands for a value the source represents as NaN or null. */
  datatype Option<+T> = None | Some(value: T)

  /** A computation that either yields a value or stops with an error. */
  datatype Result<+R, +E> = Success(value: R) | Failure(error: E)
}
