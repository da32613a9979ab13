/** Optional values, used wherever the program falls back to a default or reports failure. */
module Wrappers {

  datatype Option<+T> = None | Some(value: T)

}
