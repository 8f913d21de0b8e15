/** Optional values, shared by the placement test and the key dispatch. */
module Wrappers {
  datatype Option<T> = None | Some(value: T)
}
