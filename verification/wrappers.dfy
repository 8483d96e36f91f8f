/** Optional values, for lookups that may find nothing and calls that may not split. */
module Wrappers {

  datatype Option<+T> = None | Some(value: T)
}
