// Failure-carrying wrappers shared by the other modules: an optional value
// (Python's `None` or a value) and the outcome of a call that may raise.
module Results {

  datatype Option<+T> = None | Some(value: T)

  datatype Result<+T, +E> = Ok(value: T) | Err(error: E)
}
