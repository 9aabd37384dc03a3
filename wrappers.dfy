/** Optional values, used for Go's `error` results (None = nil) and for effects that may not happen. */
module Wrappers {

  datatype Option<+T> = None | Some(value: T)
}
