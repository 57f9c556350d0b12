/** Optional values and results with an error, for lookups that may find
    nothing and for operations that raise in the original program. */
module Wrappers {

  datatype Option<+T> = None | Some(value: T)

  datatype Result<+T, +E> = Ok(value: T) | Err(error: E)
}
