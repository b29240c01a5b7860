/** Optional values and error-carrying results shared by the other modules. */
module Base {

  /** A value that may be absent, as an object property that was never assigned. */
  datatype Option<+T> = None | Some(value: T)

  /** The outcome of an operation that either produces a value or throws. */
  datatype Result<+T, +E> = Ok(value: T) | Err(error: E)
}
