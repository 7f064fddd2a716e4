/** Optional values and error results, for the places where the sources use `undefined`, `null` or throw. */
module Wrappers {
  datatype Option<+T> = None | Some(value: T)

  datatype Result<+T, +E> = Ok(value: T) | Err(error: E)
}
