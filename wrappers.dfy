/** Optional results: the source's `None`-or-value returns. */
module Wrappers {
  datatype Option<+T> = None | Some(value: T)
}
