// Outcomes shared by every component: an optional value, and a value or the error that was raised.
module Results {

  datatype Option<+T> = None | Some(value: T)

  datatype Result<+T, +E> = Ok(value: T) | Err(error: E)
}
