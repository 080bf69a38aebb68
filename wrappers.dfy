/** The optional value used where the source has `T | null` or an absent value. */
module Wrappers {
  datatype Option<+T> = None | Some(value: T)
}
