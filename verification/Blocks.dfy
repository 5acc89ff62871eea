/** Bytes, 16-byte blocks and the CBC chaining shared by AES-CCM and AES-CMAC.
    AES itself stays a parameter: nothing below depends on what it computes. */
module Blocks {
  import opened Widths

  type Byte = bv8
  type Bytes = seq<bv8>
  type Block = b: seq<bv8> | |b| == 16 witness Zeros(16)
  type Cipher = (Block, Block) -> Block

  function Zeros(n: nat): (z: Bytes)
    ensures |z| == n
  {
    seq(n, _ => 0 as bv8)
  }

  function Xor(a: Block, b: Block): (c: Block) {
    seq(16, i requires 0 <= i < 16 => a[i] ^ b[i])
  }

  /** Byte by byte. */
  lemma XorBytes(a: Block, b: Block, c: Block)
    ensures c == Xor(a, b) <==> forall i :: 0 <= i < 16 ==> c[i] == a[i] ^ b[i]
  {
  }

  /** x with `d` xored over the bytes starting at `at`. */
  function XorAt(x: Block, at: nat, d: Bytes): (c: Block)
    requires at + |d| <= 16
  {
    seq(16, i requires 0 <= i < 16 => if at <= i < at + |d| then x[i] ^ d[i - at] else x[i])
  }

  /** Zero fill up to the next multiple of 16. */
  function Pad(d: Bytes): (p: Bytes)
    ensures |p| % 16 == 0 && d <= p && |p| < |d| + 16
  {
    d + Zeros((16 - |d| % 16) % 16)
  }

  lemma ZerosAre(z: Bytes)
    ensures z == Zeros(|z|) <==> forall i :: 0 <= i < |z| ==> z[i] == 0
  {
  }

  /** z is the zeros that fill n bytes up to whole blocks. */
  predicate ZeroFill(n: nat, z: Bytes) {
    |z| < 16 && (n + |z|) % 16 == 0 && forall i :: 0 <= i < |z| ==> z[i] == 0
  }

  lemma PadIs(d: Bytes, z: Bytes)
    requires ZeroFill(|d|, z)
    ensures Pad(d) == d + z
  {
    assert |z| == (16 - |d| % 16) % 16;
    ZerosAre(z);
  }

  lemma WholeBlocks(a: nat, b: nat)
    requires a % 16 == 0 && b % 16 == 0
    ensures (a + b) % 16 == 0
  {
  }

  /** CBC-MAC chaining value after absorbing whole blocks: X := E(K, X xor B). */
  function Cbc(aes: Cipher, key: Block, x: Block, d: Bytes): Block
    requires |d| % 16 == 0
    decreases |d|
  {
    if d == [] then x else Cbc(aes, key, aes(key, Xor(x, d[..16])), d[16..])
  }

  lemma {:induction false} CbcAppend(aes: Cipher, key: Block, x: Block, a: Bytes, b: Bytes)
    requires |a| % 16 == 0 && |b| % 16 == 0
    ensures Cbc(aes, key, x, a + b) == Cbc(aes, key, Cbc(aes, key, x, a), b)
    decreases |a|
  {
    if a == [] {
      assert a + b == b;
    } else {
      assert (a + b)[..16] == a[..16] && (a + b)[16..] == a[16..] + b;
      CbcAppend(aes, key, aes(key, Xor(x, a[..16])), a[16..], b);
    }
  }

  /** One more block, written as xoring a possibly short block into the chaining value. */
  lemma CbcStep(aes: Cipher, key: Block, x: Block, a: Bytes, t: Bytes)
    requires |a| % 16 == 0 && 0 < |t| <= 16
    ensures Cbc(aes, key, x, a + Pad(t)) == aes(key, XorAt(Cbc(aes, key, x, a), 0, t))
  {
    var p, c := Pad(t), Cbc(aes, key, x, a);
    CbcAppend(aes, key, x, a, p);
    CbcOne(aes, key, c, p);
    assert Xor(c, p) == XorAt(c, 0, t);
  }

  lemma CbcNothing(aes: Cipher, key: Block, x: Block)
    ensures Cbc(aes, key, x, []) == x
  {
  }

  lemma CbcOne(aes: Cipher, key: Block, x: Block, b: Block)
    ensures Cbc(aes, key, x, b) == aes(key, Xor(x, b))
  {
    assert b[..16] == b && b[16..] == [];
  }

  /** Padding only touches the last block. */
  lemma PadTail(a: Bytes, t: Bytes)
    requires |a| % 16 == 0
    ensures Pad(a + t) == a + Pad(t)
  {
    assert (|a| + |t|) % 16 == |t| % 16;
  }

  lemma XorAtAppend(x: Block, at: nat, a: Bytes, b: Bytes)
    requires at + |a| + |b| <= 16
    ensures XorAt(XorAt(x, at, a), at + |a|, b) == XorAt(x, at, a + b)
  {
  }
}
