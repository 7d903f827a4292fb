/** The optional-value datatype used for board cells and for the active piece. */
module Wrappers {
  datatype Option<+T> = None | Some(value: T)
}
