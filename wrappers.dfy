/** Failure-compatible result types: Java's `null` and thrown exceptions become values. */
module Wrappers {

  /** A possibly-absent value; `None` stands for Java's `null`. */
  datatype Option<+T> = None | Some(value: T)

  /** The value of a call that returns something or throws. */
  datatype Result<+T, +E> = Ok(value: T) | Err(error: E)

  /** The outcome of a call that returns nothing or throws. */
  datatype Outcome<+E> = Pass | Fail(error: E)
}
