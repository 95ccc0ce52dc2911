/** What the other modules share. */
module Common {
  datatype Option<+T> = None | Some(value: T)

  const TWO_63: int := 0x8000_0000_0000_0000
  const TWO_64: int := 0x1_0000_0000_0000_0000

  type Byte = b: int | 0 <= b < 256

  function AsNat(b: bool): nat { if b then 1 else 0 }
}
