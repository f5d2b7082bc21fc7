/** Python's `Optional[...]` and raised errors, as values. */
module Options {

  /** `None` or a present value. */
  datatype Option<+T> = None | Some(value: T)

  /** A value, or the error an operation would have raised. */
  datatype Result<+T> = Ok(value: T) | Err(error: string)
}
