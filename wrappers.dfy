/** Optional values: JavaScript's `null` / Python's `Optional[...]`. */
module Wrappers {
  datatype Option<+T> = None | Some(value: T)
}
