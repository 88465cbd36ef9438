/** Option and Result types used throughout the model. */
module Wrappers {

  /** A value that may be absent: a missing document or document field. */
  datatype Option<+T> = None | Some(value: T)

  /** The outcome of a step that may raise in `get_today_meal`: either a value or the text
      of the exception that would be raised. */
  datatype Result<+R, +E> = Success(value: R) | Failure(error: E)
}
