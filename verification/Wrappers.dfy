/** Types shared by the modules. */
module Wrappers {
  datatype Option<+T> = None | Some(value: T)

  type byte = x: int | 0 <= x < 256
}
