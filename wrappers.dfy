/** Optional values: the absent case stands for a C++ null pointer or for an
    exception that the caller turns into one. */
module Wrappers {

  datatype Option<+T> = None | Some(value: T)

}
