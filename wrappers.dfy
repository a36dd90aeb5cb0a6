/** Optional values: a quantity that may be undefined (a DSCR over a zero debt service). */
module Wrappers {

  datatype Option<+T> = None | Some(value: T)
}
