/** Optional values, standing for Go's `nil`-or-value returns. */
module Wrappers {

  datatype Option<+T> = None | Some(value: T)
}
