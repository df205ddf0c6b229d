/** The usual Some/None datatype, used for optional request fields and lookups. */
module Optional {
  datatype Option<+T> = None | Some(value: T)
}
