/** The machine words the drivers count with, the C arithmetic on them, and shared small definitions. */
module Words {
  const LIMIT32 := 0x1_0000_0000
  const LIMIT64 := 0x1_0000_0000_0000_0000

  type uint32 = x: int | 0 <= x < LIMIT32
  type uint64 = x: int | 0 <= x < LIMIT64
  type uint8 = x: int | 0 <= x < 0x100

  /** `x + 1` in 32 bits. */
  function Inc32(x: uint32): uint32 {
    if x == LIMIT32 - 1 then 0 else x + 1
  }

  /** `x - 1` in 32 bits. */
  function Dec32(x: uint32): uint32 {
    if x == 0 then LIMIT32 - 1 else x - 1
  }

  /** A sequence without its element `k`. */
  function Without<T>(s: seq<T>, k: nat): seq<T>
    requires k < |s|
  {
    s[..k] + s[k + 1..]
  }

  datatype Option<+T> = None | Some(value: T)
}
