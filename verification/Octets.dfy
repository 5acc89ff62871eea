/** Bytes as numbers. */
module Octets {
  import opened Widths

  lemma NumberKept(n: int)
    requires 0 <= n < 0x100
    ensures (n as bv8) as int == n
  {
  }

  lemma OctetKept(b: bv8)
    ensures (b as int) as bv8 == b
  {
  }

  function Octet(n: uint8): bv8 { n as bv8 }

  lemma OctetValue(n: uint8, b: bv8)
    ensures b == Octet(n) <==> b as int == n
  {
    if b == Octet(n) {
      NumberKept(n);
    } else if b as int == n {
      OctetKept(b);
    }
  }

  lemma OctetRange(b: bv8)
    ensures 0 <= b as int < 0x100
  {
  }

  /** 16-bit value in network byte order. */
  function Be16(n: uint16): (b: seq<bv8>)
    ensures |b| == 2
  {
    [Octet(n / 256), Octet(n % 256)]
  }

  lemma TwoOctets(n: uint16, high: bv8, low: bv8)
    ensures high == Octet(n / 256) && low == Octet(n % 256) <==> 256 * (high as int) + (low as int) == n
  {
    hide Octet;
    OctetValue(n / 256, high);
    OctetValue(n % 256, low);
    OctetRange(high);
    OctetRange(low);
    Digits(n, high as int, low as int);
  }

  /** The first byte counts 256, the second one 1, and no other two bytes have that value. */
  lemma Be16Value(n: uint16, b: seq<bv8>)
    requires |b| == 2
    ensures b == Be16(n) <==> 256 * (b[0] as int) + (b[1] as int) == n
  {
    hide Octet;
    TwoOctets(n, b[0], b[1]);
  }

  lemma Digits(n: nat, high: nat, low: nat)
    requires low < 0x100
    ensures 256 * high + low == n <==> high == n / 256 && low == n % 256
  {
  }
}
