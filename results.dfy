/** Option and Result, the two failure-carrying shapes the font layer returns. */
module Results {

  datatype Option<+T> = None | Some(value: T)

  /** `Result<T, E>`: `Ok` carries the value, `Err` the failure. */
  datatype Result<+T, +E> = Ok(value: T) | Err(error: E)
}
