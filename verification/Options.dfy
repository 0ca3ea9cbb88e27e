/** An optional value, as the other modules use it. */
module Options {
  datatype Option<T> = None | Some(value: T)
}
