/** Optional values, used wherever the source uses null or an empty marker. */
module Wrappers {

  datatype Option<+T> = None | Some(value: T)
}
