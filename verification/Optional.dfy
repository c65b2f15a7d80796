/** A value that may be absent, as a nil pointer or a failed lookup is in the source. */
module Optional {
  datatype Option<T> = None | Some(value: T)
}
