/** Failure-compatible wrappers: an absent value (Objective-C `nil`) and a
    result that either carries a value or the error a call raised. */
module Wrappers {

  /** A value that may be missing; `None` stands for `nil`. */
  datatype Option<+T> = None | Some(value: T)

  /** The outcome of a call that may raise. */
  datatype Result<+R, +E> = Success(value: R) | Failure(error: E)
}
