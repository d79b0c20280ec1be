// An optional value, for the null pointers and missing entries of the source.
module Options {
  datatype Option<+T> = None | Some(value: T)
}
