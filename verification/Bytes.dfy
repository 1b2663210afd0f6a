/** Machine integers and the optional values shared by every component of the model. */
module Bytes {
  const TWO_32 := 0x1_0000_0000

  type Byte = b: int | 0 <= b < 0x100
  type U16 = n: int | 0 <= n < 0x1_0000
  type U32 = n: int | 0 <= n < TWO_32

  datatype Option<+T> = None | Some(value: T)
}
