/** Optional values, used where the source has a nullable or "not found" result. */
module Wrappers {
  datatype Option<+T> = None | Some(value: T)
}
