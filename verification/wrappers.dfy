/** Optional values and success/error results shared by every service module. */
module Wrappers {

  /** A value that may be absent: a nullable column, an optional field or a missing lookup. */
  datatype Option<+T> = None | Some(value: T)

  /** The outcome of a service call: a value, or the error the service throws. */
  datatype Result<+T, +E> = Ok(value: T) | Err(error: E)
}
