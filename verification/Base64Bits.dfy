/** The alphabet of base64 and the bit fields of three bytes, RFC 4648 section 4. */
module Base64Bits {
  const PAD: bv8 := 61

  /** The character for a 6-bit value: A-Z, a-z, 0-9, + and /. */
  function Char(i: bv8): bv8 {
    if i < 26 then i + 65 else if i < 52 then i + 71 else if i < 62 then i - 4 else if i == 62 then 43 else 47
  }

  /** The value of a character, 99 if it is not in the alphabet. */
  function Lookup(c: bv8): bv8 {
    if 65 <= c <= 90 then c - 65 else if 97 <= c <= 122 then c - 71 else if 48 <= c <= 57 then c + 4
    else if c == 43 then 62 else if c == 47 then 63 else 99
  }

  function First(a: bv8): bv8 { a >> 2 }

  function Second(a: bv8, b: bv8): bv8 { ((a & 3) << 4) | (b >> 4) }

  function Third(b: bv8, c: bv8): bv8 { ((b & 15) << 2) | (c >> 6) }

  function Fourth(c: bv8): bv8 { c & 63 }

  lemma SixBits(a: bv8, b: bv8, c: bv8)
    ensures First(a) < 64 && Second(a, b) < 64 && Third(b, c) < 64 && Fourth(c) < 64
  {
  }

  lemma LookupChar(i: bv8)
    requires i < 64
    ensures Lookup(Char(i)) == i && Char(i) != PAD
  {
  }

  /** 'A' to 'Z', 'a' to 'z', '0' to '9', '+' and '/', in this order, by their ASCII codes; '=' is none of them. */
  lemma Alphabet(i: bv8)
    ensures Char(0) == 65 && Char(25) == 90 && Char(26) == 97 && Char(51) == 122 && Char(52) == 48 && Char(61) == 57
    ensures Char(62) == 43 && Char(63) == 47 && PAD == 61
    ensures i < 25 || 26 <= i < 51 || 52 <= i < 61 ==> Char(i + 1) == Char(i) + 1
  {
  }

  /** Lookup is the inverse of Char, and 99 for all characters that Char does not yield. */
  lemma LookupIs(c: bv8, i: bv8)
    requires i < 64
    ensures Lookup(c) == i <==> c == Char(i)
    ensures Lookup(c) < 64 || Lookup(c) == 99
  {
  }

  /** Six bits after the other, the four values are the 24 bits of the three bytes. */
  lemma SameBits(a: bv8, b: bv8, c: bv8)
    ensures (First(a) as bv32 << 18) | (Second(a, b) as bv32 << 12) | (Third(b, c) as bv32 << 6) | Fourth(c) as bv32
            == (a as bv32 << 16) | (b as bv32 << 8) | c as bv32
  {
  }

  /** The encoder keeps the low bits of a byte, in place, as the carry for the next one. */
  function CarryOne(a: bv8): bv8 { (a << 4) & 0x30 }

  function CarryTwo(b: bv8): bv8 { (b << 2) & 0x3C }

  function With4(carry: bv8, b: bv8): bv8 { carry | (b >> 4) }

  function With6(carry: bv8, b: bv8): bv8 { carry | (b >> 6) }

  lemma Carries(a: bv8, b: bv8, c: bv8)
    ensures With4(CarryOne(a), b) == Second(a, b) && CarryOne(a) == Second(a, 0)
    ensures With6(CarryTwo(b), c) == Third(b, c) && CarryTwo(b) == Third(b, 0)
  {
  }

  function Read24(a: bv8, b: bv8, c: bv8): bv32 {
    c as bv32 | (b as bv32 << 8) | (a as bv32 << 16)
  }

  function Field24(src: bv32, k: int): bv8
    requires 0 <= k < 4
  {
    (match k
     case 0 => (src >> 18) & 0x3F
     case 1 => (src >> 12) & 0x3F
     case 2 => (src >> 6) & 0x3F
     case _ => src & 0x3F) as bv8
  }

  lemma Field24Is(a: bv8, b: bv8, c: bv8)
    ensures Field24(Read24(a, b, c), 0) == First(a) && Field24(Read24(a, b, c), 1) == Second(a, b)
    ensures Field24(Read24(a, b, c), 2) == Third(b, c) && Field24(Read24(a, b, c), 3) == Fourth(c)
  {
  }

  /** The decoder combines two 6-bit values without masking; the block decoder stores the low byte. */
  function Combine(value: bv8, left: int, next: bv8, right: int): bv16
    requires 0 <= left <= 8 && 0 <= right <= 8
  {
    (value as bv16 << left) | (next >> right) as bv16
  }

  function LowByte(v: bv16): bv8 { (v & 0xff) as bv8 }

  lemma Combined(a: bv8, b: bv8, c: bv8)
    ensures LowByte(Combine(First(a), 2, Second(a, b), 4)) == a
    ensures LowByte(Combine(Second(a, b), 4, Third(b, c), 2)) == b
    ensures LowByte(Combine(Third(b, c), 6, Fourth(c), 0)) == c
  {
  }
}
