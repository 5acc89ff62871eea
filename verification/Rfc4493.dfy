/** AES-CMAC as RFC 4493 defines it, with the subkeys specified on 128-bit strings. */
module Rfc4493 {
  import opened BitStrings
  import opened Blocks

  function High(b: Block): bv64 { Join(b[0], b[1], b[2], b[3], b[4], b[5], b[6], b[7]) }

  function Low(b: Block): bv64 { Join(b[8], b[9], b[10], b[11], b[12], b[13], b[14], b[15]) }

  /** The 128-bit string of a block. */
  function Bits(b: Block): bv128 { Wide(High(b), Low(b)) }

  /** Bits loses nothing: a block is determined by its bits. */
  lemma BitsInjective(a: Block, b: Block)
    requires Bits(a) == Bits(b)
    ensures a == b
  {
    WideInjective(High(a), Low(a), High(b), Low(b));
    JoinInjective(a[0], a[1], a[2], a[3], a[4], a[5], a[6], a[7], b[0], b[1], b[2], b[3], b[4], b[5], b[6], b[7]);
    JoinInjective(a[8], a[9], a[10], a[11], a[12], a[13], a[14], a[15],
                  b[8], b[9], b[10], b[11], b[12], b[13], b[14], b[15]);
  }

  /** A block moved left by one bit, byte by byte. */
  function Shifted(l: Block): Block {
    seq(16, i requires 0 <= i < 16 => ShiftByte(l[i], if i < 15 then l[i + 1] else 0))
  }

  /** K1 from L, and K2 from K1: the block whose bits are the doubled bits. */
  function Subkey(l: Block): (k: Block)
    ensures Bits(k) == Double(Bits(l))
  {
    var s := Shifted(l);
    var k := if l[0] & 0x80 != 0 then s[15 := Reduce8(s[15])] else s;
    SubkeyBits(l, s, k);
    k
  }

  lemma SubkeyBits(l: Block, s: Block, k: Block)
    requires s == Shifted(l) && k == if l[0] & 0x80 != 0 then s[15 := Reduce8(s[15])] else s
    ensures Bits(k) == Double(Bits(l))
  {
    hide Join, Wide, ShiftByte, Double, Shift64, Top64, Top8, Reduce64, Reduce8;
    WideDouble(High(l), Low(l));
    JoinShift(l[0], l[1], l[2], l[3], l[4], l[5], l[6], l[7], l[8]);
    JoinShift(l[8], l[9], l[10], l[11], l[12], l[13], l[14], l[15], 0);
    JoinEnds(l[0], l[1], l[2], l[3], l[4], l[5], l[6], l[7]);
    JoinEnds(l[8], l[9], l[10], l[11], l[12], l[13], l[14], l[15]);
    JoinEnds(s[8], s[9], s[10], s[11], s[12], s[13], s[14], s[15]);
    TopBit(l[0]);
  }

  /** Section 2.4, step 2 and 3: the number of blocks, at least one. */
  function BlockCount(len: nat): nat {
    if len == 0 then 1 else (len + 15) / 16
  }

  /** Section 2.4: a one bit and then zeros after an incomplete block. */
  function Padding(t: Bytes): Block
    requires |t| < 16
  {
    t + [0x80] + Zeros(15 - |t|)
  }

  /** Section 2.4, step 4: the last block, padded if incomplete and masked with its subkey. */
  function MaskedLast(m: Bytes, k1: Block, k2: Block): Block {
    if m != [] && |m| % 16 == 0 then Xor(m[|m| - 16..], k1) else Xor(Padding(m[|m| - |m| % 16..]), k2)
  }

  function LastBlock(aes: Cipher, key: Block, m: Bytes): Block {
    var k1 := Subkey(aes(key, Zeros(16)));
    MaskedLast(m, k1, Subkey(k1))
  }

  /** Section 2.4, steps 5 to 7, over the first n - 1 blocks and the last one. */
  function Chained(aes: Cipher, key: Block, m: Bytes, n: nat): Block
    requires 1 <= n <= BlockCount(|m|)
  {
    aes(key, Xor(Cbc(aes, key, Zeros(16), m[..16 * (n - 1)]), LastBlock(aes, key, m)))
  }

  function Cmac(aes: Cipher, key: Block, m: Bytes): Block {
    Chained(aes, key, m, BlockCount(|m|))
  }

  /** The MAC of whole blocks, with K1 told by its bits. */
  lemma CmacComplete(aes: Cipher, key: Block, m: Bytes, k: Block)
    requires m != [] && |m| % 16 == 0 && Bits(k) == Double(Bits(aes(key, Zeros(16))))
    ensures Cmac(aes, key, m)
            == aes(key, Xor(Cbc(aes, key, Zeros(16), m[..|m| - 16]), Xor(m[|m| - 16..], k)))
  {
    hide Bits, Double, Xor, Cbc, Subkey;
    BitsInjective(k, Subkey(aes(key, Zeros(16))));
    assert 16 * (BlockCount(|m|) - 1) == |m| - 16;
  }

  /** The MAC of any other message, with K2 told by its bits: what is left behind the whole blocks is followed by
      0x80 and zeros. */
  lemma CmacPadded(aes: Cipher, key: Block, m: Bytes, k: Block, z: Bytes)
    requires m == [] || |m| % 16 != 0
    requires Bits(k) == Double(Double(Bits(aes(key, Zeros(16)))))
    requires |m| % 16 + 1 + |z| == 16 && forall i :: 0 <= i < |z| ==> z[i] == 0
    ensures var whole := |m| - |m| % 16;
            Cmac(aes, key, m)
            == aes(key, Xor(Cbc(aes, key, Zeros(16), m[..whole]), Xor(m[whole..] + [0x80] + z, k)))
  {
    hide Bits, Double, Xor, Cbc, Subkey;
    BitsInjective(k, Subkey(Subkey(aes(key, Zeros(16)))));
    ZerosAre(z);
    assert 16 * (BlockCount(|m|) - 1) == |m| - |m| % 16;
  }

  function MaskedMac(aes: Cipher, key: Block, whole: Bytes, last: Block, k: Block): Block
    requires |whole| % 16 == 0
  {
    aes(key, Xor(Cbc(aes, key, Zeros(16), whole), Xor(last, k)))
  }

  /** h is the MAC of m: what both lemmas say, for every block with the bits of the subkey. */
  ghost predicate IsMac(aes: Cipher, key: Block, m: Bytes, h: Block) {
    var l := Bits(aes(key, Zeros(16)));
    var n := |m| - |m| % 16;
    if m != [] && n == |m| then
      forall k: Block :: Bits(k) == Double(l) ==> h == MaskedMac(aes, key, m[..n - 16], m[n - 16..], k)
    else
      forall k: Block :: Bits(k) == Double(Double(l)) ==>
        h == MaskedMac(aes, key, m[..n], m[n..] + [0x80] + Zeros(15 - (|m| - n)), k)
  }

  lemma CmacIsMac(aes: Cipher, key: Block, m: Bytes, h: Block)
    ensures IsMac(aes, key, m, h) <==> h == Cmac(aes, key, m)
  {
    hide Bits, Double, Cmac, Subkey, Zeros;
    var n := |m| - |m| % 16;
    var k1 := Subkey(aes(key, Zeros(16)));
    if m != [] && n == |m| {
      CompleteForAll(aes, key, m);
      assert Bits(k1) == Double(Bits(aes(key, Zeros(16))));
    } else {
      PaddedForAll(aes, key, m, n);
      assert Bits(Subkey(k1)) == Double(Double(Bits(aes(key, Zeros(16)))));
    }
  }

  lemma CompleteForAll(aes: Cipher, key: Block, m: Bytes)
    requires m != [] && |m| % 16 == 0
    ensures forall k: Block :: Bits(k) == Double(Bits(aes(key, Zeros(16)))) ==>
              Cmac(aes, key, m) == MaskedMac(aes, key, m[..|m| - 16], m[|m| - 16..], k)
  {
    hide Bits, Double, Cmac, Subkey, Cbc, Xor;
    forall k: Block | Bits(k) == Double(Bits(aes(key, Zeros(16))))
      ensures Cmac(aes, key, m) == MaskedMac(aes, key, m[..|m| - 16], m[|m| - 16..], k)
    {
      CmacComplete(aes, key, m, k);
    }
  }

  lemma PaddedForAll(aes: Cipher, key: Block, m: Bytes, n: nat)
    requires n == |m| - |m| % 16 && (m == [] || n < |m|)
    ensures forall k: Block :: Bits(k) == Double(Double(Bits(aes(key, Zeros(16))))) ==>
              Cmac(aes, key, m) == MaskedMac(aes, key, m[..n], m[n..] + [0x80] + Zeros(15 - (|m| - n)), k)
  {
    hide Bits, Double, Cmac, Subkey, Cbc, Xor;
    var z := Zeros(15 - (|m| - n));
    ZerosAre(z);
    forall k: Block | Bits(k) == Double(Double(Bits(aes(key, Zeros(16)))))
      ensures Cmac(aes, key, m) == MaskedMac(aes, key, m[..n], m[n..] + [0x80] + z, k)
    {
      CmacPadded(aes, key, m, k, z);
    }
  }

  /** The subkeys of the example in section 4. */
  lemma ExampleSubkeys()
    ensures Bits([0x7d, 0xf7, 0x6b, 0x0c, 0x1a, 0xb8, 0x99, 0xb3, 0x3e, 0x42, 0xf0, 0x47, 0xb9, 0x1b, 0x54, 0x6f])
         == 0x7df76b0c1ab899b33e42f047b91b546f
    ensures Double(0x7df76b0c1ab899b33e42f047b91b546f) == 0xfbeed618357133667c85e08f7236a8de
    ensures Double(0xfbeed618357133667c85e08f7236a8de) == 0xf7ddac306ae266ccf90bc11ee46d513b
  {
  }
}
