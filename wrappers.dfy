/** Optional values: a JSON field, a git output or a file that may be absent. */
module Wrappers {

  datatype Option<+T> = None | Some(value: T)
}
