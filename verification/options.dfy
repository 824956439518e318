/** The optional-value datatype used wherever the library returns `Option<...>`. */
module Options {

  /** `None` is the expected "not supported / not this trait" outcome, never an error. */
  datatype Option<+T> = None | Some(value: T)
}
