/** Option and Result, used for `T | null` values and for the TypeError the source can raise. */
module Wrappers {

  /** `None` stands for JavaScript's `null`. */
  datatype Option<+T> = None | Some(value: T)

  /** `Failure` carries what went wrong; `Success` the computed value. */
  datatype Result<+R, +E> = Success(value: R) | Failure(error: E)
}
