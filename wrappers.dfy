/** Option and Result values shared by the other modules. */
module Wrappers {

  /** A value that may be absent: PHP `null` or a missing array key. */
  datatype Option<T> = None | Some(value: T)

  /** The outcome of an operation that may throw. */
  datatype Result<T, E> = Ok(value: T) | Err(error: E)
}
