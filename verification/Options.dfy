/** A value that may be absent: SQL NULL, Python None, a missing key. */
module Options {
  datatype Option<+T> = None | Some(value: T)
}
