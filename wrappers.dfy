/** Optional values: `None` stands for the `null` the source returns for "no value". */
module Wrappers {
  datatype Option<+T> = None | Some(value: T)
}
