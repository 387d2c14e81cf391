/** The optional-value datatype used where the source can fail or a value may be absent. */
module Wrappers {
  datatype Option<+T> = None | Some(value: T)
}
