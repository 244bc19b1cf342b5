/** Optional values, standing in for the C code's NULL returns
    and NULL delivery rows. */
module Wrappers {

  /** `None` plays the role of a NULL pointer; `Some(v)` of a live handle. */
  datatype Option<+T> = None | Some(value: T)
}
