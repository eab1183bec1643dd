/** Option, Result and Outcome: the error paths of the scraper as values. */
module Wrappers {

  datatype Option<+T> = None | Some(value: T)

  datatype Result<+R, +E> = Success(value: R) | Failure(error: E)

  /** The outcome of a call that returns nothing but may raise: Pass, or Fail with the exception text. */
  datatype Outcome<+E> = Pass | Fail(error: E)
}
