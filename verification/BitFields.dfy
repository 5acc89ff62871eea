/** Shifts and masks on unsigned numbers, and the bit field they cut out of a byte string. */
module BitFields {
  import opened Widths
  import opened HidItems

  function Pow2(n: nat): (p: nat)
    ensures p > 0
  {
    if n == 0 then 1 else 2 * Pow2(n - 1)
  }

  function Or(a: nat, b: nat): nat {
    if a == 0 && b == 0 then 0 else 2 * Or(a / 2, b / 2) + (if a % 2 == 1 || b % 2 == 1 then 1 else 0)
  }

  function And(a: nat, b: nat): nat {
    if a == 0 || b == 0 then 0 else 2 * And(a / 2, b / 2) + (if a % 2 == 1 && b % 2 == 1 then 1 else 0)
  }

  lemma {:induction false} OrZero(b: nat)
    ensures Or(0, b) == b
  {
    if b > 0 {
      OrZero(b / 2);
    }
  }

  /** Or-ing above the bits in use adds. */
  lemma {:induction false} OrAbove(a: nat, b: nat, k: nat)
    requires a < Pow2(k)
    ensures Or(a, b * Pow2(k)) == a + b * Pow2(k)
  {
    if k == 0 {
      OrZero(b);
    } else {
      var c := b * Pow2(k - 1);
      assert b * Pow2(k) == 2 * c;
      OrAbove(a / 2, b, k - 1);
      if a == 0 && c == 0 {
      } else {
        assert Or(a, 2 * c) == 2 * Or(a / 2, 2 * c / 2) + a % 2;
      }
    }
  }

  /** x without its k lowest bits. */
  function Shr(x: nat, k: nat): nat {
    if k == 0 then x else Shr(x / 2, k - 1)
  }

  /** The k lowest bits of x. */
  function Low(x: nat, k: nat): nat {
    if k == 0 then 0 else x % 2 + 2 * Low(x / 2, k - 1)
  }

  lemma {:induction false} Pow2Add(a: nat, b: nat)
    ensures Pow2(a + b) == Pow2(a) * Pow2(b)
  {
    if a > 0 {
      Pow2Add(a - 1, b);
    }
  }

  lemma {:induction false} Pow256Pow2(n: nat)
    ensures Pow256(n) == Pow2(8 * n)
  {
    if n > 0 {
      Pow256Pow2(n - 1);
      Pow2Add(8, 8 * (n - 1));
      assert Pow2(8) == 256;
    }
  }

  lemma {:induction false} ShrAtMost(x: nat, k: nat)
    ensures Shr(x, k) <= x
  {
    if k > 0 {
      ShrAtMost(x / 2, k - 1);
    }
  }

  lemma {:induction false} LowAtMost(x: nat, k: nat)
    ensures Low(x, k) <= x
  {
    if k > 0 {
      LowAtMost(x / 2, k - 1);
    }
  }

  function Shl32(x: nat, k: nat): uint32 { ToUint32(x * Pow2(k)) }

  lemma {:induction false} Pow2Monotone(a: nat, b: nat)
    requires a <= b
    ensures Pow2(a) <= Pow2(b)
  {
    if a > 0 {
      Pow2Monotone(a - 1, b - 1);
    }
  }

  lemma WordSize()
    ensures Pow2(31) == 0x8000_0000 && Pow2(32) == 0x1_0000_0000
  {
    assert Pow2(8) == 256;
    Pow2Add(8, 8);
    Pow2Add(16, 15);
    assert Pow2(15) == 0x8000;
  }

  lemma ByteFits(b: uint8, k: nat)
    requires 8 + k <= 32
    ensures Shl32(b, k) == b * Pow2(k) && b * Pow2(k) + Pow2(k) <= Pow2(8 + k) <= 0x1_0000_0000
  {
    Pow2Add(8, k);
    Pow2Monotone(8 + k, 32);
    WordSize();
    assert Pow2(8) == 256;
    AtMost256(b, Pow2(k));
    hide *;
    assert Shl32(b, k) == ToUint32(b * Pow2(k)) by { ShlIs(b, k); }
  }

  lemma ShlIs(b: nat, k: nat)
    ensures Shl32(b, k) == ToUint32(b * Pow2(k))
  {
  }

  lemma AtMost256(b: uint8, p: nat)
    ensures b * p + p <= 256 * p && b * p >= 0
  {
    assert 256 * p == b * p + p + (255 - b) * p;
  }

  /** Or-ing in the next byte extends the little-endian value. */
  lemma OneMoreByte(d: seq<uint8>, b: uint8)
    requires |d| < 4 && Le(d) < Pow2(8 * |d|)
    ensures Or(Le(d), Shl32(b, 8 * |d|)) == Le(d + [b]) < Pow2(8 * (|d| + 1)) <= 0x1_0000_0000
  {
    hide *;
    ByteFits(b, 8 * |d|);
    OrAbove(Le(d), b, 8 * |d|);
    LeAppend(d, b);
    Pow256Pow2(|d|);
    assert 8 + 8 * |d| == 8 * (|d| + 1);
  }

  /** Shifting divides and masking takes the remainder. */
  lemma {:induction false} ShrLow(x: nat, k: nat)
    ensures Shr(x, k) == x / Pow2(k) && Low(x, k) == x % Pow2(k)
  {
    if k > 0 {
      ShrLow(x / 2, k - 1);
      Doubled(x, Pow2(k - 1), Pow2(k));
    }
  }

  lemma DivMod(x: nat, d: nat)
    requires d > 0
    ensures x == x / d * d + x % d && x % d < d && x / d >= 0
  {
  }

  lemma Doubled(x: nat, p: nat, d: nat)
    requires p > 0 && d == 2 * p
    ensures x / d == x / 2 / p && x % d == 2 * (x / 2 % p) + x % 2
  {
    DivMod(x, d);
    DivMod(x / 2, p);
    DoubledParts(x, p, x / 2 / p, x / 2 % p, x / d, x % d);
  }

  lemma DoubledParts(x: nat, p: nat, q: nat, r: nat, q': nat, r': nat)
    requires x / 2 == q * p + r && r < p && x == q' * (2 * p) + r' && r' < 2 * p
    ensures q' == q && r' == 2 * r + x % 2
  {
    assert q * (2 * p) == 2 * (q * p);
    Unique(2 * p, q, 2 * r + x % 2, q', r');
  }

  /** Quotient and remainder are determined by their equation. */
  lemma Unique(d: nat, q: nat, r: nat, q': nat, r': nat)
    requires q * d + r == q' * d + r' && r < d && r' < d
    ensures q == q' && r == r'
  {
    if q < q' {
      Apart(d, q, q');
    } else if q' < q {
      Apart(d, q', q);
    }
  }

  lemma Apart(d: nat, q: nat, q': nat)
    requires q < q'
    ensures q * d + d <= q' * d
  {
    assert q' * d == q * d + d + (q' - q - 1) * d;
  }

  lemma {:induction false} AndMask(x: nat, k: nat)
    ensures And(x, Pow2(k) - 1) == Low(x, k)
  {
    if k > 0 {
      AndMask(x / 2, k - 1);
    }
  }

  /** Testing the top bit of a number with k + 1 bits. */
  lemma {:induction false} AndTop(x: nat, k: nat)
    requires x < Pow2(k + 1)
    ensures And(x, Pow2(k)) == if x >= Pow2(k) then Pow2(k) else 0
  {
    if k > 0 {
      AndTop(x / 2, k - 1);
    }
  }

  lemma {:induction false} ShrAdd(x: nat, a: nat, b: nat)
    ensures Shr(x, a + b) == Shr(Shr(x, a), b)
  {
    if a > 0 {
      ShrAdd(x / 2, a - 1, b);
    }
  }

  lemma {:induction false} LowBelow(x: nat, k: nat)
    ensures Low(x, k) < Pow2(k)
  {
    if k > 0 {
      LowBelow(x / 2, k - 1);
    }
  }

  /** A field that lies in the lowest m bits is found there. */
  lemma {:induction false} FieldInLow(x: nat, m: nat, start: nat, size: nat)
    requires start + size <= m
    ensures Low(Shr(Low(x, m), start), size) == Low(Shr(x, start), size)
    decreases m
  {
    if start > 0 {
      FieldInLow(x / 2, m - 1, start - 1, size);
    } else if size > 0 {
      FieldInLow(x / 2, m - 1, 0, size - 1);
    }
  }

  /** One byte in front shifts everything by eight bits. */
  lemma ByteInFront(b: uint8, y: nat, k: nat)
    ensures Shr(b + 256 * y, 8 + k) == Shr(y, k)
    ensures Low(b + 256 * y, 8 + k) == b + 256 * Low(y, k)
  {
    BitsInFront(b, y, 8, k);
    ShlByte(y);
    ShlByte(Low(y, k));
    assert Pow2(8) == 256;
  }

  lemma ShlByte(x: nat)
    ensures Shl(x, 8) == 256 * x
  {
    assert Shl(x, 1) == 2 * Shl(x, 0) == 2 * x;
    assert Shl(x, 2) == 2 * Shl(x, 1) == 4 * x;
    assert Shl(x, 4) == 4 * Shl(x, 2) == 16 * x;
    assert Shl(x, 6) == 4 * Shl(x, 4) == 64 * x;
  }

  function Shl(x: nat, k: nat): nat {
    if k == 0 then x else 2 * Shl(x, k - 1)
  }

  lemma {:induction false} BitsInFront(b: nat, y: nat, n: nat, k: nat)
    requires b < Pow2(n)
    ensures Shr(b + Shl(y, n), n + k) == Shr(y, k)
    ensures Low(b + Shl(y, n), n + k) == b + Shl(Low(y, k), n)
  {
    if n > 0 {
      assert (b + Shl(y, n)) / 2 == b / 2 + Shl(y, n - 1) && (b + Shl(y, n)) % 2 == b % 2;
      BitsInFront(b / 2, y, n - 1, k);
    }
  }

  lemma {:induction false} LeBits(d: seq<uint8>, k: nat)
    requires k <= |d|
    ensures Shr(Le(d), 8 * k) == Le(d[k..])
    ensures Low(Le(d), 8 * k) == Le(d[..k])
  {
    if k == 0 {
      assert d[..0] == [] && d[0..] == d;
    } else {
      LeBits(d[1..], k - 1);
      ByteInFront(d[0], Le(d[1..]), 8 * (k - 1));
      assert d[1..][..k - 1] == d[..k][1..] && d[1..][k - 1..] == d[k..] && d[..k][0] == d[0];
    }
  }

  /** The field of `size` bits from bit `start` of a byte string, bit 0 being the lowest of byte 0. */
  function Field(d: seq<uint8>, start: nat, size: nat): nat {
    Le(d) / Pow2(start) % Pow2(size)
  }

  /** It is found in the bytes it touches. */
  lemma FieldInBytes(d: seq<uint8>, start: nat, size: nat, n: nat)
    requires start / 8 + n <= |d| && start % 8 + size <= 8 * n
    ensures Field(d, start, size) == Low(Shr(Le(d[start / 8..start / 8 + n]), start % 8), size)
  {
    var k, s := start / 8, start % 8;
    LeBits(d, k);
    LeBits(d[k..], n);
    assert d[k..][..n] == d[k..k + n];
    ShrAdd(Le(d), 8 * k, s);
    FieldInLow(Le(d[k..]), 8 * n, s, size);
    ShrLow(Le(d), start);
    ShrLow(Shr(Le(d), start), size);
  }

  lemma FieldIs(d: seq<uint8>, start: nat, size: nat)
    ensures Field(d, start, size) == Low(Shr(Le(d), start), size)
  {
    ShrLow(Le(d), start);
    ShrLow(Shr(Le(d), start), size);
  }

  /** Behind the first byte, positions are eight bits further on. */
  lemma FieldBehindByte(d: seq<uint8>, start: nat, size: nat)
    requires d != []
    ensures Field(d, start + 8, size) == Field(d[1..], start, size)
  {
    FieldIs(d, start + 8, size);
    FieldIs(d[1..], start, size);
    ByteInFront(d[0], Le(d[1..]), start);
  }

  lemma LowBit(x: nat, size: nat, j: nat)
    requires j < size
    ensures Low(Shr(Low(x, size), j), 1) == Low(Shr(x, j), 1)
  {
    FieldInLow(x, size, j, 1);
  }

  /** Bit j of a field is bit start + j of the byte string. */
  lemma FieldBit(d: seq<uint8>, start: nat, size: nat, j: nat)
    requires j < size && start + size <= 8 * |d|
    ensures var at := start + j;
            Field(d, start, size) / Pow2(j) % 2 == d[at / 8] / Pow2(at % 8) % 2
  {
    var k, r := (start + j) / 8, (start + j) % 8;
    var x := Le(d);
    FieldIs(d, start, size);
    LowBit(Shr(x, start), size, j);
    ShrAdd(x, start, j);
    ShrAdd(x, 8 * k, r);
    LeBits(d, k);
    LowBit(Le(d[k..]), 8, r);
    LeBits(d[k..], 1);
    LeOne(d, k);
    ShrLow(Field(d, start, size), j);
    ShrLow(d[k], r);
    OneBit(Shr(Field(d, start, size), j));
    OneBit(Shr(d[k], r));
  }

  lemma LeOne(d: seq<uint8>, k: nat)
    requires k < |d|
    ensures |d[k..]| >= 1 && Le(d[k..][..1]) == d[k]
  {
    assert d[k..][..1][1..] == [];
  }

  lemma OneBit(x: nat)
    ensures Low(x, 1) == x % 2
  {
    assert Low(x / 2, 0) == 0;
  }
}
