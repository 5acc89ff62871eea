/** The fixed-width integers of the C sources, and how a wider value is stored in one. */
module Widths {
  type uint8 = n: int | 0 <= n < 0x100
  type uint16 = n: int | 0 <= n < 0x1_0000
  type uint32 = n: int | 0 <= n < 0x1_0000_0000
  type int16 = n: int | -0x8000 <= n < 0x8000
  type int32 = n: int | -0x8000_0000 <= n < 0x8000_0000

  function ToUint8(n: int): (r: uint8)
    ensures 0 <= n < 0x100 ==> r == n
  {
    n % 0x100
  }

  function ToUint16(n: int): (r: uint16)
    ensures 0 <= n < 0x1_0000 ==> r == n
  {
    n % 0x1_0000
  }

  function ToUint32(n: int): (r: uint32)
    ensures 0 <= n < 0x1_0000_0000 ==> r == n
  {
    n % 0x1_0000_0000
  }

  function Min(a: nat, b: nat): nat { if a < b then a else b }

  function ToInt16(n: int): int16 { (n + 0x8000) % 0x1_0000 - 0x8000 }

  function ToInt32(n: int): int32 { (n + 0x8000_0000) % 0x1_0000_0000 - 0x8000_0000 }

  /** Reductions may be left to the end of a sum. */
  lemma Sum16(a: int, b: int)
    ensures ToUint16(ToUint16(a) + b) == ToUint16(a + b)
  {
  }

  /** Storing takes away full turns of the width, until the number is in range. */
  lemma Stored(n: int, turns: int)
    ensures 0 <= n - 0x100 * turns < 0x100 ==> ToUint8(n) == n - 0x100 * turns
    ensures 0 <= n - 0x1_0000 * turns < 0x1_0000 ==> ToUint16(n) == n - 0x1_0000 * turns
    ensures 0 <= n - 0x1_0000_0000 * turns < 0x1_0000_0000 ==> ToUint32(n) == n - 0x1_0000_0000 * turns
    ensures -0x8000 <= n - 0x1_0000 * turns < 0x8000 ==> ToInt16(n) == n - 0x1_0000 * turns
    ensures -0x8000_0000 <= n - 0x1_0000_0000 * turns < 0x8000_0000 ==> ToInt32(n) == n - 0x1_0000_0000 * turns
  {
  }
}
