/** Failure-carrying values used by every module of the model: a missing value
    and a computation that either succeeds or stops with an error, the way the
    scripts stop with an uncaught exception. */
module Wrappers {

  datatype Option<+T> = None | Some(value: T)

  datatype Result<+T, +E> = Ok(value: T) | Err(error: E)
}
