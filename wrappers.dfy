/** Optional values: an absent query parameter, a cache miss, a failed upstream call. */
module Wrappers {

  datatype Option<+T> = None | Some(value: T)
}
