/** The optional value used where the source returns an `Optional` or a possibly-null reference. */
module Wrappers {
  datatype Option<+T> = None | Some(value: T)
}
