/** The optional value used wherever a lookup may find nothing or a field may be absent. */
module Wrappers {
  datatype Option<+T> = None | Some(value: T)
}
