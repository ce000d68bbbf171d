/** Optional values: `None` stands for JavaScript's `undefined`, `null` or `NaN`. */
module Wrappers {
  datatype Option<+T> = None | Some(value: T)
}
