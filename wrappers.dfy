/** Optional values, for the absent path key and absent workspace directory. */
module Wrappers {

  datatype Option<+T> = None | Some(value: T)
}
