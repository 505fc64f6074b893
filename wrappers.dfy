/** Optional values, shared by the modules that model a lookup or a parse
    that can fail. */
module Wrappers {
  datatype Option<T> = None | Some(value: T)
}
