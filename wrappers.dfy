/** Optional values, standing for Go's nil-able pointers and nil-able errors. */
module Wrappers {

  datatype Option<+T> = None | Some(value: T)
}
