/** The usual Some/None datatype, for steps that may be disabled and look-ups that may miss. */
module Options {
  datatype Option<+T> = None | Some(value: T)
}
