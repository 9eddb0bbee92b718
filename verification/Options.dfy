/** A value that may be absent: null, undefined, or a row a query did not return. */
module Options {
  datatype Option<+T> = None | Some(value: T)
}
