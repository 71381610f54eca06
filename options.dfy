/** A value that may be absent, for the source's nullable references. */
module Options {
  datatype Option<+T> = None | Some(value: T)
}
