/** The optional value used for a NULL `char *` (a tombstoned name) and for parses that can fail. */
module Options {
  datatype Option<+T> = None | Some(value: T)
}
