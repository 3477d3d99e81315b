/** The optional value used where the parser skips a line instead of producing an item. */
module Wrappers {
  datatype Option<+T> = None | Some(value: T)
}
