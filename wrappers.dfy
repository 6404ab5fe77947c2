/** Optional values, used for lookups and regular-expression matches that may fail. */
module Wrappers {
  datatype Option<+T> = None | Some(value: T)
}
