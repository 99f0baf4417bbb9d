/** The optional value used for a missing path and for a failed parse. */
module Optional {
  datatype Option<+T> = None | Some(value: T)
}
