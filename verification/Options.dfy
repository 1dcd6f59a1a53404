/** A value that may be missing: a null pointer, an absent map entry, an unset optional field. */
module Options {
  datatype Option<+T> = None | Some(value: T)
}
