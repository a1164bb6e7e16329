/** Optional values: `None` stands for Python's `None` and for SQL NULL. */
module Wrappers {
  datatype Option<+T> = None | Some(value: T)
}
