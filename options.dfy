/** The optional value the editor's state uses where the source stores `null`. */
module Options {
  datatype Option<+T> = None | Some(value: T)
}
