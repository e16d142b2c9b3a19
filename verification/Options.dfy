/** An optional value: a NULL column, a missing answer. */
module Options {
  datatype Option<+T> = None | Some(value: T)
}
