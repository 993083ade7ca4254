/** Failure-carrying values: the model's stand-in for the module's panics. */
module Wrappers {

  datatype Option<+T> = None | Some(value: T)

  datatype Result<+R, +E> = Success(value: R) | Failure(error: E)

  /** Outcome of an entry point that returns nothing: it either completes or panics. */
  datatype Outcome<+E> = Pass | Fail(error: E)
}
