/** A value that may be missing: a nil pointer, a NULL column, an absent key. */
module Options {
  datatype Option<+T> = None | Some(value: T)
}
