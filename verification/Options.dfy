module Options {
  /** A nullable column, or a Python value that may be None. */
  datatype Option<+T> = None | Some(value: T)
}
