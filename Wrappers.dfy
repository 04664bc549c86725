/** Optional values, used wherever the service's Go code returns a value or nil. */
module Wrappers {
  datatype Option<+T> = None | Some(value: T)
}
