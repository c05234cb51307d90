module Options {

  /** A value, or the absence of one. */
  datatype Option<T> = None | Some(value: T)
}
