/** Optional values, used where the program has a nullable column or an absent value. */
module Wrappers {
  datatype Option<+T> = None | Some(value: T)
}
