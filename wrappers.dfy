/** The optional value used for lookups that may find nothing and state that may be unset. */
module Wrappers {

  datatype Option<+T> = None | Some(value: T)
}
