/** Option, Result and Outcome: the failure-carrying values the model uses in
    place of JavaScript's null/undefined, thrown errors and process exits. */
module Wrappers {

  datatype Option<+T> = None | Some(value: T)

  datatype Result<+R, +E> = Ok(value: R) | Err(error: E)

  /** Pass, or Fail with a reason: a step that either lets the command go on or stops it. */
  datatype Outcome<+E> = Pass | Fail(error: E)
}
