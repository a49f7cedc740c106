/** Optional values: the outcome of an operation the source can fail on. */
module Wrappers {

  datatype Option<T> = None | Some(value: T)
}
