/** A value that may be missing, for pointers that may be null. */
module Options {
  datatype Option<+T> = None | Some(value: T)
}
