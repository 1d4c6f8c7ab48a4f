/** Optional values: the source's `None` and its "no value yet" results. */
module Wrappers {
  datatype Option<+T> = None | Some(value: T)
}
