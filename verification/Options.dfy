/** A value that may be missing: NULL pointers and calls that fail. */
module Options {
  datatype Option<+T> = None | Some(value: T)
}
