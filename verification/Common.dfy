/** Small datatypes shared by the models. */
module Common {

  /** A pointer or iterator that may be null. */
  datatype Option<+T> = None | Some(value: T)

  /** The outcome of code that either returns normally or throws. */
  datatype Result<+T> = Ok(value: T) | Throw
}
