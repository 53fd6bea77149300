/** Optional values (Ruby's `nil` or a value) and the success/failure result of
    an operation that can be rejected. */
module Wrappers {

  /** A nullable attribute: `None` plays the part of `nil`. */
  datatype Option<+T> = None | Some(value: T)

  /** The outcome of a persisting operation: the new state, or why it was refused. */
  datatype Result<+R, +E> = Success(value: R) | Failure(error: E)
}
