/** Failure-compatible result types used in place of the exceptions and null
    references of the modelled C# code. */
module Wrappers {

  /** A value or nothing: `None` stands for a C# null reference. */
  datatype Option<+T> = None | Some(value: T)

  /** A value, or the error that the C# code raises as an exception. */
  datatype Result<+R, +E> = Ok(value: R) | Err(error: E)

  /** Success without a value, or the error that a `void` C# member throws. */
  datatype Outcome<+E> = Pass | Fail(error: E)
}
