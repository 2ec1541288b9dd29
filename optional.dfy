/** The optional result of a lookup. */
module Optional {
  datatype Option<+T> = None | Some(value: T)
}
