/** Failure-carrying datatypes shared by the model: an optional value, a value
    or an error, and a bare pass/fail verdict. */
module Wrappers {

  datatype Option<+T> = None | Some(value: T)

  datatype Result<+T, +E> = Ok(value: T) | Err(error: E)

  datatype Outcome<+E> = Pass | Fail(error: E)
}
