/** A value that may be absent: the source's NULL pointers, unset ids and missing table entries. */
module Options {
  datatype Option<+T> = None | Some(value: T)
}
