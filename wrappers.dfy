/** Optional values: an absent storage slot, an absent file, a form that failed validation. */
module Wrappers {

  datatype Option<+T> = None | Some(value: T)
}
