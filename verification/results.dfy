/** Failure-carrying values used throughout the model: `Option` for a
    JavaScript value that may be `null`/`undefined`, and `Result` for an
    operation that either returns or throws an `Error`. */
module Results {

  datatype Option<+T> = None | Some(value: T)

  datatype Result<+T, +E> = Ok(value: T) | Err(error: E)
}
