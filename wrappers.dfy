/** The optional value used for nullable columns and unassigned rule properties. */
module Wrappers {
  datatype Option<+T> = None | Some(value: T)
}
