/**
  The optional value and the success-or-error result the models share: a Go
  `*T` that may be nil, and a `(T, error)` pair or a panic.
 */
module Wrappers {

  datatype Option<T> = None | Some(value: T)

  datatype Result<T, E> = Ok(value: T) | Err(error: E)
}
