/** Optional values: `None` stands for a JavaScript `null` match or a `NaN` number. */
module Wrappers {

  datatype Option<+T> = None | Some(value: T)
}
