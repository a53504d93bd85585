/** Outcome of an operation that can fail: its value, or the reason it failed. */
module Results {

  datatype Result<+T, +E> = Ok(value: T) | Err(error: E)

}
