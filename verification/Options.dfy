/** An optional value: a pointer that may be null, or a result that may be absent. */
module Options {
  datatype Option<T> = None | Some(value: T)
}
