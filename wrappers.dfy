/** Optional values, used for absent storage keys, optional record fields and failed searches. */
module Wrappers {
  datatype Option<+T> = None | Some(value: T)
}
