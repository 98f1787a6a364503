/** An optional value: C's null pointer and "no token" results. */
module Options {
  datatype Option<T> = None | Some(value: T)
}
