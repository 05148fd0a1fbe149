/** Optional values: a nullable column, a missing form field. */
module Wrappers {
  datatype Option<+T> = None | Some(value: T)
}
