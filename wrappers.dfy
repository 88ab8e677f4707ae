/** The Option, Result and Outcome types used by the report collator model. */
module Wrappers {

  /** An optional value: `None` plays the part of Ruby's `nil` result. */
  datatype Option<+T> = None | Some(value: T)

  /** A value or the error that aborted the computation. */
  datatype Result<+T, +E> = Ok(value: T) | Err(error: E)

  /** Success without a value, or the error that stopped a check. */
  datatype Outcome<+E> = Pass | Fail(error: E)
}
