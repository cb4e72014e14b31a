/** Optional values, standing in for PHP's `null`, `false` and `''` results. */
module Wrappers {
  datatype Option<+T> = None | Some(value: T)
}
