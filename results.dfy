/** Option and Result, the shapes in which the model reports a missing value or a raised error. */
module Results {

  datatype Option<+T> = None | Some(value: T)

  datatype Result<+T, +E> = Ok(value: T) | Err(error: E)
}
