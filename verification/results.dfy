/** Optional values and failure-carrying results shared by every module. */
module Results {

  /** A value that may be absent: JavaScript's `undefined` or `null` return. */
  datatype Option<+T> = None | Some(value: T)

  /** The outcome of an operation that may throw. */
  datatype Result<+T, +E> = Ok(value: T) | Err(error: E)
}
