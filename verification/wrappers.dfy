/** Optional values: the form either finds something or shows nothing. */
module Wrappers {

  datatype Option<+T> = None | Some(value: T)
}
