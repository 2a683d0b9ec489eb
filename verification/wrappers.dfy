/** Optional values, standing in for the nullable (`T | null`) fields of the application. */
module Wrappers {

  datatype Option<+T> = None | Some(value: T)
}
