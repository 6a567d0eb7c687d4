/** The value-or-error result used for the source's exceptions. */
module Outcomes {

  datatype Result<+T, +E> = Ok(value: T) | Err(error: E)

  datatype Option<+T> = None | Some(value: T)
}
