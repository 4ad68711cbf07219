/** The success/failure and presence/absence wrappers the model uses in place
    of Rust's `Result` and `Option`. */
module Results {

  datatype Option<+T> = None | Some(value: T)

  datatype Result<+T, +E> = Ok(value: T) | Err(error: E)
}
