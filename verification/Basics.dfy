/** Types shared by every module. */
module Basics {

  datatype Option<+T> = None | Some(value: T)

  newtype Int64 = x: int | -0x8000_0000_0000_0000 <= x < 0x8000_0000_0000_0000
}
