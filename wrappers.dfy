/** Optional values, standing for the source's optional record fields and nullable results. */
module Wrappers {
  datatype Option<+T> = None | Some(value: T)
}
