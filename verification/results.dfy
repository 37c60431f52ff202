/** Success-or-error values and optional values, the model's stand-ins for Rust's
    `Result` and `Option`. */
module Results {

  /** An optional value. */
  datatype Option<+T> = None | Some(value: T)

  /** The outcome of a fallible step: a value, or the error that stopped it. */
  datatype Result<+T, +E> = Ok(value: T) | Err(error: E)
}
