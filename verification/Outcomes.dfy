/** Values that may be missing, and calls that may throw. */
module Outcomes {
  datatype Option<+T> = None | Some(value: T)

  /** A value, or the exception that was thrown instead. */
  datatype Result<+T> = Ok(value: T) | Thrown(what: string)
}
