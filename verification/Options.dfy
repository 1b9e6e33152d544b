/** A value that may be absent: the source's NULL. */
module Options {
  datatype Option<T> = None | Some(value: T)
}
