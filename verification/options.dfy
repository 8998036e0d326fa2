/** A value that may be absent: a nil pointer, channel or error of the source. */
module Options {
  datatype Option<+V> = None | Some(value: V)
}
