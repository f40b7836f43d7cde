/** Option and Result, the two failure-carrying shapes the model uses in place of
    JavaScript's `null` returns and thrown `Error`s. */
module Wrappers {

  datatype Option<+T> = None | Some(value: T)

  /** A call that either returns a value or throws an error carrying `error`
      (the thrown `Error`'s message). */
  datatype Result<+T, +E> = Success(value: T) | Failure(error: E)
}
