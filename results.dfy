/** Optional values and success/failure results, as used throughout the model. */
module Results {

  datatype Option<+T> = None | Some(value: T)

  /** A `Result` mirrors Rust's `Result<T, E>`: `Ok` carries the value, `Err` the error. */
  datatype Result<+T, +E> = Ok(value: T) | Err(error: E)
}
