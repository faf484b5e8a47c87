/** Optional values: a nullable or optional field, or a lookup that can miss. */
module Wrappers {
  datatype Option<+T> = None | Some(value: T)
}
