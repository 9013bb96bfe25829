/** Optional values and error returns shared by every component. */
module Results {

  datatype Option<+T> = None | Some(value: T)

  /** A Go `(value, error)` pair: a failing call carries the error and no value. */
  datatype Result<+T> = Ok(value: T) | Err(error: string)
}
