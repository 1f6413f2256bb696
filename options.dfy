/** An optional value: JavaScript's `undefined` or a missing field. */
module Options {
  datatype Option<T> = None | Some(value: T)
}
