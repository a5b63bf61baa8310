/** Optional values: a prompt the user may skip, or an input that failed to parse. */
module Wrappers {

  datatype Option<+T> = None | Some(value: T)

}
