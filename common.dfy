/** Failure-carrying wrappers shared by the other modules. */
module Common {

  datatype Option<T> = None | Some(value: T)

  /** The value of an operation that either returns or raises `error`. */
  datatype Result<T, E> = Ok(value: T) | Err(error: E)
}
