/** Optional values: stand for the C++ null pointer (a `char const*` that may be nullptr). */
module Wrappers {

  datatype Option<+T> = None | Some(value: T)
}
