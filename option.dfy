/** The optional value used for spreadsheet cells that may be absent and for lookups that may fail. */
module Optional {
  datatype Option<T> = None | Some(value: T)
}
