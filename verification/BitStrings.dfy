/** Bytes, 64-bit and 128-bit strings, as far as shifting a 16-byte key needs them. */
module BitStrings {
  /** Eight bytes, most significant first. */
  function Join(b0: bv8, b1: bv8, b2: bv8, b3: bv8, b4: bv8, b5: bv8, b6: bv8, b7: bv8): bv64 {
    (b0 as bv64 << 56) | (b1 as bv64 << 48) | (b2 as bv64 << 40) | (b3 as bv64 << 32)
    | (b4 as bv64 << 24) | (b5 as bv64 << 16) | (b6 as bv64 << 8) | (b7 as bv64)
  }

  function Wide(high: bv64, low: bv64): bv128 {
    (high as bv128 << 64) | low as bv128
  }

  lemma WideInjective(a: bv64, b: bv64, c: bv64, d: bv64)
    requires Wide(a, b) == Wide(c, d)
    ensures a == c && b == d
  {
  }

  lemma JoinInjective(b0: bv8, b1: bv8, b2: bv8, b3: bv8, b4: bv8, b5: bv8, b6: bv8, b7: bv8,
                      c0: bv8, c1: bv8, c2: bv8, c3: bv8, c4: bv8, c5: bv8, c6: bv8, c7: bv8)
    requires Join(b0, b1, b2, b3, b4, b5, b6, b7) == Join(c0, c1, c2, c3, c4, c5, c6, c7)
    ensures b0 == c0 && b1 == c1 && b2 == c2 && b3 == c3 && b4 == c4 && b5 == c5 && b6 == c6 && b7 == c7
  {
  }

  /** b moved left by one bit, with the top bit of the next byte shifted in. */
  function ShiftByte(b: bv8, next: bv8): bv8 { (b << 1) | (next >> 7) }

  function Shift64(v: bv64, carry: bv64): bv64 { (v << 1) | carry }

  function Top8(b: bv8): bv64 { (b >> 7) as bv64 }

  function Top64(v: bv64): bv64 { v >> 63 }

  function Reduce8(b: bv8): bv8 { b ^ 0x87 }

  function Reduce64(v: bv64): bv64 { v ^ 0x87 }

  lemma JoinShift(b0: bv8, b1: bv8, b2: bv8, b3: bv8, b4: bv8, b5: bv8, b6: bv8, b7: bv8, c: bv8)
    ensures Shift64(Join(b0, b1, b2, b3, b4, b5, b6, b7), Top8(c))
         == Join(ShiftByte(b0, b1), ShiftByte(b1, b2), ShiftByte(b2, b3), ShiftByte(b3, b4),
                 ShiftByte(b4, b5), ShiftByte(b5, b6), ShiftByte(b6, b7), ShiftByte(b7, c))
  {
    hide Join;
    JoinShiftBits(b0, b1, b2, b3, b4, b5, b6, b7, c);
  }

  lemma JoinShiftBits(b0: bv8, b1: bv8, b2: bv8, b3: bv8, b4: bv8, b5: bv8, b6: bv8, b7: bv8, c: bv8)
    ensures (Join(b0, b1, b2, b3, b4, b5, b6, b7) << 1) | (c >> 7) as bv64
         == Join((b0 << 1) | (b1 >> 7), (b1 << 1) | (b2 >> 7), (b2 << 1) | (b3 >> 7), (b3 << 1) | (b4 >> 7),
                 (b4 << 1) | (b5 >> 7), (b5 << 1) | (b6 >> 7), (b6 << 1) | (b7 >> 7), (b7 << 1) | (c >> 7))
  {
  }

  lemma JoinEnds(b0: bv8, b1: bv8, b2: bv8, b3: bv8, b4: bv8, b5: bv8, b6: bv8, b7: bv8)
    ensures Top64(Join(b0, b1, b2, b3, b4, b5, b6, b7)) == Top8(b0)
    ensures Join(b0, b1, b2, b3, b4, b5, b6, Reduce8(b7)) == Reduce64(Join(b0, b1, b2, b3, b4, b5, b6, b7))
  {
  }

  /** Section 2.3 of RFC 4493: multiplication by x in GF(2^128), with const_Rb = 0x87. */
  function Double(v: bv128): bv128 {
    if v & 0x8000_0000_0000_0000_0000_0000_0000_0000 == 0 then v << 1 else (v << 1) ^ 0x87
  }

  lemma WideShift(a: bv64, b: bv64)
    ensures Wide(a, b) << 1 == Wide(Shift64(a, Top64(b)), Shift64(b, Top8(0)))
  {
    hide Wide;
    WideShiftBits(a, b);
    assert (b << 1) | (((0 as bv8) >> 7) as bv64) == b << 1;
  }

  lemma WideShiftBits(a: bv64, b: bv64)
    ensures Wide(a, b) << 1 == Wide((a << 1) | (b >> 63), b << 1)
  {
  }

  lemma WideReduce(a: bv64, b: bv64)
    ensures Wide(a, b) ^ 0x87 == Wide(a, Reduce64(b))
  {
  }

  lemma WideTop(a: bv64, b: bv64)
    ensures Wide(a, b) & 0x8000_0000_0000_0000_0000_0000_0000_0000 == 0 <==> Top64(a) == 0
  {
  }

  /** Doubling two halves: the carry from the low half, and the reduction in the last byte. */
  lemma WideDouble(a: bv64, b: bv64)
    ensures Double(Wide(a, b))
         == Wide(Shift64(a, Top64(b)), if Top64(a) == 0 then Shift64(b, Top8(0)) else Reduce64(Shift64(b, Top8(0))))
  {
    hide Wide, Shift64, Top64, Top8, Reduce64;
    WideShift(a, b);
    WideTop(a, b);
    WideReduce(Shift64(a, Top64(b)), Shift64(b, Top8(0)));
  }

  lemma TopBit(b: bv8)
    ensures b & 0x80 == 0 <==> Top8(b) == 0
  {
  }
}
