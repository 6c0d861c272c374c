/** Failure-carrying results, standing for Go's (value, error) pairs and for values that may be absent. */
module Results {
  datatype Option<+T> = None | Some(value: T)

  datatype Result<+T, +E> = Ok(value: T) | Err(error: E)
}
