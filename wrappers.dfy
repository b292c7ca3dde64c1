/** Optional values, used where the layout code can produce "no value". */
module Wrappers {
  datatype Option<+T> = None | Some(value: T)
}
