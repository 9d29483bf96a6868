/** Optional values and value-or-error results, used for the JavaScript
    `null`/`undefined` cases and for thrown errors respectively. */
module Results {

  datatype Option<+T> = None | Some(value: T)

  /** The outcome of an operation that either returns a value or throws. */
  datatype Result<+T, +E> = Ok(value: T) | Err(error: E)
}
