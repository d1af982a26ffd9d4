/** Optional values: Go's nil-able pointer fields of a cookie configuration. */
module Wrappers {

  datatype Option<+T> = None | Some(value: T)
}
