/** The optional value used for SQL NULL columns and for the early exits of a run. */
module Wrappers {
  datatype Option<+T> = None | Some(value: T)
}
