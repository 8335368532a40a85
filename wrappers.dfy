/** Option, Result and Outcome: the error paths of the plugin are values, not exceptions. */
module Wrappers {

  /** A value that may be missing (an absent option, an undefined lookup). */
  datatype Option<+T> = None | Some(value: T)

  /** A value or the error that replaced it (a thrown Error). */
  datatype Result<+T, +E> = Ok(value: T) | Err(error: E)

  /** Success or the error that aborted a state-changing operation. */
  datatype Outcome<+E> = Pass | Fail(error: E)
}
