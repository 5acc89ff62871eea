/** Counter with CBC-MAC, RFC 3610, for L = 2 and a 13-byte nonce: what a CCM
    implementation has to compute, stated on whole messages. */
module Rfc3610 {
  import opened Widths
  import opened Octets
  import opened Sequences
  import opened Blocks

  datatype Params = Params(key: Block, nonce: Bytes, messageLen: uint16, aadLen: uint16, authLen: uint8)

  /** Section 2: M is even and between 4 and 16. Section 2.2: two length bytes cover l(a) < 0xff00. */
  predicate Legal(p: Params) {
    |p.nonce| == 13 && 4 <= p.authLen <= 16 && p.authLen % 2 == 0 && p.aadLen < 0xff00
  }

  /** Section 2.2: 64 * Adata + 8 * ((M - 2) / 2) + (L - 1). */
  function Flags(adata: bool, m: uint8): Byte
    requires 4 <= m <= 16 && m % 2 == 0
  {
    Octet(64 * (if adata then 1 else 0) + 8 * ((m - 2) / 2) + 1)
  }

  lemma FlagsValue(adata: bool, m: uint8, b: Byte)
    requires 4 <= m <= 16 && m % 2 == 0
    ensures b == Flags(adata, m) <==> b as int == (if adata then 64 else 0) + 8 * ((m - 2) / 2) + 1
  {
    OctetValue(64 * (if adata then 1 else 0) + 8 * ((m - 2) / 2) + 1, b);
  }

  /** Section 2.2: flags, nonce and l(m). */
  function B0(p: Params): Block
    requires Legal(p)
  {
    [Flags(p.aadLen > 0, p.authLen)] + p.nonce + Be16(p.messageLen)
  }

  /** The fields of B_0, read as numbers: no other block has them. */
  lemma B0Fields(p: Params, b: Block)
    requires Legal(p)
    ensures b == B0(p) <==>
      && b[0] as int == (if p.aadLen > 0 then 64 else 0) + 8 * ((p.authLen - 2) / 2) + 1
      && b[1..14] == p.nonce && 256 * (b[14] as int) + (b[15] as int) == p.messageLen
  {
    hide Be16, Flags;
    FlagsValue(p.aadLen > 0, p.authLen, b[0]);
    Be16Value(p.messageLen, b[14..]);
    Fields(b, B0(p));
  }

  /** A block is its first byte, thirteen bytes and its last two bytes. */
  lemma Fields(b: Block, c: Block)
    ensures b == c <==> b[0] == c[0] && b[1..14] == c[1..14] && b[14..] == c[14..]
  {
    assert b == [b[0]] + b[1..14] + b[14..] && c == [c[0]] + c[1..14] + c[14..];
  }

  /** Section 2.2: l(a) followed by a, not yet padded; absent when a is empty. */
  function AadField(a: Bytes): Bytes
    requires |a| < 0xff00
  {
    if a == [] then [] else Be16(|a|) + a
  }

  /** Nothing, or two bytes that count the authenticated data, and the data. */
  lemma AadFieldIs(a: Bytes, f: Bytes)
    requires |a| < 0xff00
    ensures f == AadField(a) <==>
      if a == [] then f == []
      else |f| == 2 + |a| && 256 * (f[0] as int) + (f[1] as int) == |a| && f[2..] == a
  {
    hide Be16;
    if |f| == 2 + |a| {
      Be16Value(|a|, f[..2]);
      assert f == f[..2] + f[2..];
    }
  }

  /** Section 2.2: the blocks B_1, ..., B_n. */
  function Formatted(a: Bytes, m: Bytes): (b: Bytes)
    requires |a| < 0xff00
    ensures |b| % 16 == 0
  {
    var x, y := Pad(AadField(a)), Pad(m);
    WholeBlocks(|x|, |y|);
    x + y
  }

  /** Section 2.2: X_{n+1} over B_0, the authenticated data and the message. */
  function Mac(aes: Cipher, p: Params, a: Bytes, m: Bytes): Block
    requires Legal(p) && |a| < 0xff00
  {
    Cbc(aes, p.key, aes(p.key, B0(p)), Formatted(a, m))
  }

  /** Section 2.3: flags with L - 1 = 1, nonce and counter. */
  function A(p: Params, i: uint16): Block
    requires Legal(p)
  {
    [1] + p.nonce + Be16(i)
  }

  /** The fields of A_i, read as numbers: no other block has them. */
  lemma AFields(p: Params, i: uint16, a: Block)
    requires Legal(p)
    ensures a == A(p, i) <==>
      a[0] == 1 && a[1..14] == p.nonce && 256 * (a[14] as int) + (a[15] as int) == i
  {
    hide Be16;
    Be16Value(i, a[14..]);
    Fields(a, A(p, i));
  }

  /** Section 2.3: S_i := E(K, A_i). */
  function S(aes: Cipher, p: Params, i: uint16): Block
    requires Legal(p)
  {
    aes(p.key, A(p, i))
  }

  /** Section 2.3: bytes `off..` of the message xored with the key stream S_1, S_2, ... */
  function Ctr(aes: Cipher, p: Params, off: nat, d: Bytes): (c: Bytes)
    requires Legal(p) && off + |d| < 0x1_0000
    ensures |c| == |d|
  {
    seq(|d|, j requires 0 <= j < |d| => d[j] ^ S(aes, p, 1 + (off + j) / 16)[(off + j) % 16])
  }

  /** Section 2.4: the ciphertext, and U := T xor the first M bytes of S_0. */
  function Seal(aes: Cipher, p: Params, a: Bytes, m: Bytes): (r: (Bytes, Bytes))
    requires Legal(p) && |a| == p.aadLen && |m| == p.messageLen
  {
    (Ctr(aes, p, 0, m), Xor(Mac(aes, p, a, m), S(aes, p, 0))[..p.authLen])
  }

  lemma CtrByte(aes: Cipher, p: Params, off: nat, data: Bytes, i: nat, b: nat, j: nat)
    requires Legal(p) && off + |data| <= p.messageLen && i < |data| && j < 16 && off + i == 16 * b + j
    ensures Ctr(aes, p, off, data)[i] == data[i] ^ S(aes, p, 1 + b)[j]
  {
    hide S;
    assert (off + i) / 16 == b && (off + i) % 16 == j;
  }

  lemma CtrAppend(aes: Cipher, p: Params, off: nat, a: Bytes, b: Bytes)
    requires Legal(p) && off + |a| + |b| < 0x1_0000
    ensures Ctr(aes, p, off, a + b) == Ctr(aes, p, off, a) + Ctr(aes, p, off + |a|, b)
  {
  }

  /** Key stream encryption is its own inverse. */
  lemma CtrInvolution(aes: Cipher, p: Params, off: nat, d: Bytes)
    requires Legal(p) && off + |d| < 0x1_0000
    ensures Ctr(aes, p, off, Ctr(aes, p, off, d)) == d
  {
    forall j | 0 <= j < |d| ensures Ctr(aes, p, off, Ctr(aes, p, off, d))[j] == d[j] {
      var k := S(aes, p, 1 + (off + j) / 16)[(off + j) % 16];
      assert (d[j] ^ k) ^ k == d[j];
    }
  }

  /** c is the counter block of section 2.3 for i, field by field. */
  predicate IsCounterBlock(p: Params, i: nat, c: Block)
    requires Legal(p)
  {
    c[0] == 1 && c[1..14] == p.nonce && 256 * (c[14] as int) + (c[15] as int) == i
  }

  lemma KeyStreamBlock(aes: Cipher, p: Params, i: uint16, c: Block)
    requires Legal(p) && IsCounterBlock(p, i, c)
    ensures S(aes, p, i) == aes(p.key, c)
  {
    hide A;
    AFields(p, i, c);
  }

  lemma SealIs(aes: Cipher, p: Params, a: Bytes, m: Bytes)
    requires Legal(p) && |a| == p.aadLen && |m| == p.messageLen
    ensures Seal(aes, p, a, m).0 == Ctr(aes, p, 0, m)
  {
    hide Mac, Ctr, S;
  }

  /** b is the first block of section 2.2, field by field. */
  predicate IsFirstBlock(p: Params, b: Block)
    requires Legal(p)
  {
    && b[0] as int == (if p.aadLen > 0 then 64 else 0) + 8 * ((p.authLen - 2) / 2) + 1
    && b[1..14] == p.nonce && 256 * (b[14] as int) + (b[15] as int) == p.messageLen
  }

  /** Nothing, or two bytes that count the authenticated data. */
  predicate IsLengthField(a: Bytes, len: Bytes) {
    if a == [] then len == [] else |len| == 2 && 256 * (len[0] as int) + (len[1] as int) == |a|
  }

  lemma FirstBlock(p: Params, b: Block)
    requires Legal(p) && IsFirstBlock(p, b)
    ensures b == B0(p)
  {
    hide B0;
    B0Fields(p, b);
  }

  lemma LengthField(a: Bytes, len: Bytes)
    requires |a| < 0xff00 && IsLengthField(a, len)
    ensures len + a == AadField(a)
  {
    hide AadField;
    AadFieldIs(a, len + a);
  }

  /** Byte i of the ciphertext, from its counter block. */
  lemma SealedByte(aes: Cipher, p: Params, a: Bytes, m: Bytes, i: nat, k: nat, j: nat, c: Block)
    requires Legal(p) && |a| == p.aadLen && |m| == p.messageLen && i < |m| && j < 16 && i == 16 * k + j
    requires IsCounterBlock(p, 1 + k, c)
    ensures |Seal(aes, p, a, m).0| == |m| && Seal(aes, p, a, m).0[i] == m[i] ^ aes(p.key, c)[j]
  {
    hide Mac, Ctr, Legal, S, Seal, IsCounterBlock;
    KeyStreamBlock(aes, p, 1 + k, c);
    CtrByte(aes, p, 0, m, i, k, j);
    SealIs(aes, p, a, m);
  }

  /** The tag, from a first block, a last counter block, the length in front of the authenticated data, and zeros up
      to whole blocks. */
  lemma SealedTag(aes: Cipher, p: Params, a: Bytes, m: Bytes, b: Block, c: Block, len: Bytes, za: Bytes, zm: Bytes)
    requires Legal(p) && |a| == p.aadLen && |m| == p.messageLen
    requires IsFirstBlock(p, b) && IsCounterBlock(p, 0, c) && IsLengthField(a, len)
    requires ZeroFill(|len + a|, za) && ZeroFill(|m|, zm)
    ensures |len + a + za + m + zm| % 16 == 0
    ensures Seal(aes, p, a, m).1
            == Xor(Cbc(aes, p.key, aes(p.key, b), len + a + za + m + zm), aes(p.key, c))[..p.authLen]
  {
    hide S, B0, Xor, Cbc, AadField, Pad, ZeroFill, IsFirstBlock, IsCounterBlock, IsLengthField;
    FirstBlock(p, b);
    KeyStreamBlock(aes, p, 0, c);
    LengthField(a, len);
    PadIs(AadField(a), za);
    PadIs(m, zm);
    Assoc(AadField(a) + za, m, zm);
    WholeBlocks(|AadField(a) + za|, |m + zm|);
  }
}
