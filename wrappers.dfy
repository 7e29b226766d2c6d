/** Optional values, standing for the engine's nullable references. */
module Wrappers {

  datatype Option<T> = None | Some(value: T)
}
