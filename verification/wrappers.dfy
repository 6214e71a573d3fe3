/** Option, Result and Outcome values used in place of JavaScript's
    null/undefined, thrown errors and promise rejections. */
module Wrappers {

  /** A value that may be absent (JavaScript `null` or `undefined`). */
  datatype Option<+T> = None | Some(value: T)

  /** A computation that either produces a value or throws an error. */
  datatype Result<+T, +E> = Ok(value: T) | Err(error: E)

  /** A computation with no result that either completes or throws an error. */
  datatype Outcome<+E> = Pass | Fail(error: E)
}
