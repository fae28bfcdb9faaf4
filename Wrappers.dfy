/** Optional values: the model's stand-in for "not found" and for a parse that throws. */
module Wrappers {

  datatype Option<T> = None | Some(value: T)
}
