/** A value that may be absent: a missing element, control or map entry. */
module Optional {
  datatype Option<+T> = None | Some(value: T)
}
