/** The optional value used wherever the runtime returns `None`. */
module Options {
  datatype Option<+T> = None | Some(value: T)
}
