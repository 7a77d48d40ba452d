/** Shared wrappers: optional values, checked results and completed remote calls. */
module Common {

  /** A value that may be absent (`null` or `undefined` in the front end). */
  datatype Option<+T> = None | Some(value: T)

  /** The verdict of a local check: the built value, or the first rule it broke. */
  datatype Result<+T, +E> = Success(value: T) | Failure(error: E)

  /**
   * One completed HTTP call. `Err` carries the status code and the
   * `message` field of the server's error payload, when there is one.
   */
  datatype Remote<+T> = Ok(value: T) | Err(status: int, message: Option<string>)
}
