/** Optional values, standing for Go's nil-able `error` interface. */
module Wrappers {
  datatype Option<+T> = None | Some(value: T)
}
