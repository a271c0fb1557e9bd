/** Success-or-failure wrappers shared by the other modules. */
module Outcomes {

  datatype Option<T> = None | Some(value: T)

  /** The value of an operation that either returns or raises. */
  datatype Result<T, E> = Ok(value: T) | Err(error: E)
}
