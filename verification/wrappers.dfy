/** The optional-value datatype used by the parsers and by the exchange model. */
module Wrappers {

  datatype Option<+T> = None | Some(value: T)
}
