/** Optional values: a nullable browser value (a timer handle, a measured element, a parsed number). */
module Wrappers {
  datatype Option<+T> = None | Some(value: T)
}
