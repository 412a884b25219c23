/** Optional values, used for lookups and parses that may fail. */
module Wrappers {

  datatype Option<+T> = None | Some(value: T)
}
