/** Shared wrappers. */
module Prelude {

  /** A value or its absence: the source's `undefined` and optional fields. */
  datatype Option<+T> = None | Some(value: T)

  /** The outcome of a call that may throw. */
  datatype Result<+T, +E> = Ok(value: T) | Err(error: E)
}
