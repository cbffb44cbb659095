/** Types the modules share. */
module Basics {

  /** A value that may be absent: an optional field, a missing key, or a null. */
  datatype Option<+T> = None | Some(value: T)

  type byte = b: int | 0 <= b < 256
}
