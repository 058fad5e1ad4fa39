/** Option and Result: the nullable references and thrown exceptions of the
    source, written as values. */
module Wrappers {

  datatype Option<+T> = None | Some(value: T)

  /** The outcome of a check that returns nothing or throws: every step
      passed, or the error of the first one that failed. */
  datatype Outcome<+E> = Pass | Fail(error: E)

  /** The outcome of an operation that either returns a value or throws. */
  datatype Result<+R, +E> = Ok(value: R) | Err(error: E)
}
