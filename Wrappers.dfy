/** Optional values, used for the outcome of a parse that may throw. */
module Wrappers {

  datatype Option<+T> = None | Some(value: T)
}
