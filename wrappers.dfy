/** Optional values: SQL NULL, a missing row, a request that is not sent. */
module Wrappers {

  datatype Option<+T> = None | Some(value: T)
}
