/** An optional value: JavaScript's `undefined` for a missing field or a
    failed lookup. */
module Optional {
  datatype Option<T> = None | Some(value: T)
}
