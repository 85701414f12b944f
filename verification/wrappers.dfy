/** Option and Result, for values a handler may not produce (a NaN parse, an unknown session). */
module Wrappers {

  /** A value that may be absent; `None` stands for JavaScript's NaN from `parseInt`. */
  datatype Option<+T> = None | Some(value: T)

  /** The outcome of a handler: its new state, or the error that made it throw. */
  datatype Result<+T, +E> = Success(value: T) | Failure(error: E)
}
