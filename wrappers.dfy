/** Optional values: Go's nil error, a nil pointer, a nil interface. */
module Wrappers {

  datatype Option<+T> = None | Some(value: T)
}
