/** Failure-carrying result types shared by every module of the model. */
module Outcomes {

  datatype Option<+T> = None | Some(value: T)

  /** A value or the error that replaced it. */
  datatype Result<+T, +E> = Ok(value: T) | Err(error: E)

  /** The outcome of an operation that produces no value. */
  datatype Outcome<+E> = Pass | Fail(failure: E)
}
