/** Optional values, for the places where the engine returns "nothing" or
    raises an error instead of a value. */
module Wrappers {

  datatype Option<T> = None | Some(value: T)
}
