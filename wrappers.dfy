/** Optional values, used for request fields a client may leave out and for lookups that may miss. */
module Wrappers {

  datatype Option<+T> = None | Some(value: T)
}
