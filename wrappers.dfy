/** Optional values and error returns, for the places where the Python code
    returns `None` or raises. */
module Wrappers {

  datatype Option<+T> = None | Some(value: T)

  /** A computation that either succeeds with a value or raises the named
      exception. */
  datatype Result<+T> = Ok(value: T) | Err(error: string)
}
