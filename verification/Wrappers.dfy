/** Optional values and the maximum, shared by every component. */
module Wrappers {
  datatype Option<+T> = None | Some(value: T)

  function Max(a: int, b: int): int { if a > b then a else b }
}
