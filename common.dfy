/** Option and Result: Python's `None` and raised exceptions, made explicit. */
module Common {
  datatype Option<+T> = None | Some(value: T)

  datatype Result<+T, +E> = Ok(value: T) | Err(error: E)
}
