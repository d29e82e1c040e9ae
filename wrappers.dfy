/** Optional values, used for the cache file that may be absent and for lookups that may fail. */
module Wrappers {

  datatype Option<+T> = None | Some(value: T)
}
