/** The shared optional value: a nullable column, a missing map entry, a lookup without a row. */
module Option {
  datatype Option<+T> = None | Some(value: T)
}
