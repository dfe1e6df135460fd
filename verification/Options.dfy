// The optional value used where the program uses None.

module Options {
  datatype Option<+T> = None | Some(value: T)
}
