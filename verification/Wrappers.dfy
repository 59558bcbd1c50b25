/** Optional values, standing for a missing file, a nil Lua value or an empty result. */
module Wrappers {
  datatype Option<+T> = None | Some(value: T)
}
