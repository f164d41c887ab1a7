/** Outcome types shared by the models. */
module Wrappers {
  datatype Option<+T> = None | Some(value: T)

  /** A Go call's outcome: a value, a returned error, or a run-time panic. */
  datatype Outcome<+T, +E> = Ok(value: T) | Err(error: E) | Panic
}
