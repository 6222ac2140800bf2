/** The absent-or-present values that stand for the server's optional fields and `undefined` results. */
module Options {
  datatype Option<+T> = None | Some(value: T)
}
