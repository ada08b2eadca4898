// Option and Result, for lookups that may find nothing and for the
// error paths (exceptions, failed conversions) of the modelled code.

module Wrappers {
  datatype Option<T> = None | Some(value: T)

  datatype Result<T, E> = Ok(value: T) | Err(error: E)
}
