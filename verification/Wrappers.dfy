/** Optional values, used where the original returns None or raises. */
module Wrappers {
  datatype Option<+T> = None | Some(value: T)
}
