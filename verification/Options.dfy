/** An optional value, for replies that may be absent and for readers that may throw. */
module Options {
  datatype Option<+T> = None | Some(value: T)
}
