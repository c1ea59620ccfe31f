/** Optional values: `None` stands for NULL in C, or for an engine that produced nothing. */
module Wrappers {
  datatype Option<T> = None | Some(value: T)
}
