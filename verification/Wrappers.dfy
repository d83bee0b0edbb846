/** What every other module shares. */
module Wrappers {

  /** A value that may be absent: a nil pointer, a missing map entry, or a failed call. */
  datatype Option<+T> = None | Some(value: T)

  type byte = x: int | 0 <= x < 0x100
}
