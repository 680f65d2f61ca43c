/** The optional-value datatype used by lookups and parsers. */
module Wrappers {
  datatype Option<+T> = None | Some(value: T)
}
