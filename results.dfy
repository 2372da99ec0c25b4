/** Rust's `Option` and `Result`, as the model uses them. */
module Results {

  /** `Option<T>`. The declaration order matters: Rust's derived `Ord` puts `None` below every `Some`. */
  datatype Option<+T> = None | Some(value: T)

  /** `Result<T, E>`. */
  datatype Result<+T, +E> = Ok(value: T) | Err(error: E)
}
