/** The optional value that the other modules share. */
module Options {
  datatype Option<+T> = None | Some(value: T)
}
