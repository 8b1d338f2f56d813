/** Optional results: `None` is the client's zero or NULL return. */
module Wrappers {
  datatype Option<+T> = None | Some(value: T)
}
