/** The optional value used for lookups that can miss and for remote replies that can be empty. */
module Wrappers {
  datatype Option<+T> = None | Some(value: T)
}
