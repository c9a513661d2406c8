/** Optional values: a JSON key that may be absent or null, a search that may find nothing. */
module Wrappers {

  datatype Option<+T> = None | Some(value: T)
}
