/** An optional value: a row that may be missing, a lookup that may fail. */
module Options {
  datatype Option<T> = None | Some(value: T)
}
