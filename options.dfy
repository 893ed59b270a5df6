/** The optional value used for a parsed number that may be missing. */
module Options {
  datatype Option<T> = None | Some(value: T)
}
