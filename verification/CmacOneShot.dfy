/** AES-CMAC requests, in the one-shot form used with a software AES, and in the event-driven form
    that sends one encryption at a time to the Bluetooth controller. */
module CmacOneShot {
  import opened Widths
  import opened Blocks
  import opened BitStrings
  import opened Rfc4493

  /** A message comes as a buffer or as a callback that produces the byte at a position. */
  datatype Source = Message(buffer: Bytes) | Generator(byteAt: uint16 -> bv8)

  datatype Request = Request(key: Block, size: uint16, data: Source) {
    predicate Valid() {
      data.Message? ==> |data.buffer| >= size
    }

    function GetByte(pos: uint16): bv8
      requires Valid() && pos < size
    {
      match data
      case Message(buffer) => buffer[pos]
      case Generator(byteAt) => byteAt(pos)
    }

    /** The message the request stands for. */
    function Text(): (m: Bytes)
      requires Valid()
      ensures |m| == size
    {
      seq(size, i requires 0 <= i < size => GetByte(i))
    }
  }

  method ShiftLeftInPlace(data: array<bv8>)
    requires data.Length == 16
    modifies data
    ensures data[..] == Shifted(old(data[..]))
  {
    hide Shifted;
    ghost var l, next: bv8 := data[..], 0;
    var carry: bv8 := 0;
    var i := 15;
    ShiftNothing();
    while i >= 0
      invariant -1 <= i <= 15
      invariant next == (if i < 15 then l[i + 1] else 0) && carry == next >> 7
      invariant forall j :: 0 <= j < 16 ==> data[j] == if j <= i then l[j] else Shifted(l)[j]
    {
      var newCarry := data[i] >> 7;
      ShiftedAt(l, i, next);
      data[i] := (data[i] << 1) | carry;
      carry := newCarry;
      next := l[i];
      i := i - 1;
    }
  }

  lemma ShiftNothing()
    ensures (0 as bv8) >> 7 == 0
  {
  }

  lemma ShiftedAt(l: Block, i: nat, next: bv8)
    requires i < 16 && next == if i < 15 then l[i + 1] else 0
    ensures Shifted(l)[i] == (l[i] << 1) | (next >> 7)
  {
  }

  method CalcSubkey(l: Block) returns (k: Block)
    ensures k == Subkey(l)
  {
    var data := new bv8[16](i requires 0 <= i < 16 => l[i]);
    assert data[..] == l;
    ShiftLeftInPlace(data);
    if l[0] & 0x80 != 0 {
      data[15] := Reduce8(data[15]);
    }
    k := data[..];
  }

  /** Step 4 of the RFC: the last block with its padding, masked with the subkey it calls for. */
  method CalcLastBlock(r: Request, k1: Block, k2: Block) returns (last: Block)
    requires r.Valid()
    ensures last == MaskedLast(r.Text(), k1, k2)
  {
    hide MaskedLast;
    var data := new bv8[16];
    var complete := r.size != 0 && r.size % 16 == 0;
    var valid := r.size % 16;
    ghost var m := r.Text();
    var i := 0;
    while i < 16
      invariant 0 <= i <= 16
      invariant forall j :: 0 <= j < i ==> data[j] == MaskedLast(m, k1, k2)[j]
    {
      MaskedAt(m, k1, k2, i);
      var b: bv8;
      if complete {
        b := r.GetByte(r.size - 16 + i) ^ k1[i];
      } else if i < valid {
        b := r.GetByte(r.size - valid + i) ^ k2[i];
      } else if i == valid {
        b := 0x80 ^ k2[i];
      } else {
        b := k2[i];
      }
      assert b == MaskedLast(m, k1, k2)[i];
      data[i] := b;
      i := i + 1;
    }
    last := data[..];
    assert last == MaskedLast(m, k1, k2);
  }

  lemma MaskedAt(m: Bytes, k1: Block, k2: Block, i: nat)
    requires i < 16
    ensures var r := |m| % 16;
            MaskedLast(m, k1, k2)[i] == if m != [] && r == 0 then m[|m| - 16 + i] ^ k1[i]
                                        else if i < r then m[|m| - r + i] ^ k2[i]
                                        else if i == r then 0x80 ^ k2[i] else k2[i]
  {
    hide Padding, Xor, MaskedLast;
    MaskedParts(m, k1, k2);
    var r := |m| % 16;
    if m != [] && r == 0 {
      XorIndex(m[|m| - 16..], k1, i);
    } else {
      PaddedAt(m[|m| - r..], k2, i);
    }
  }

  lemma MaskedParts(m: Bytes, k1: Block, k2: Block)
    ensures var r := |m| % 16;
            MaskedLast(m, k1, k2)
            == if m != [] && r == 0 then Xor(m[|m| - 16..], k1) else Xor(Padding(m[|m| - r..]), k2)
  {
  }

  lemma PaddedAt(t: Bytes, k: Block, i: nat)
    requires |t| < 16 && i < 16
    ensures Xor(Padding(t), k)[i] == if i < |t| then t[i] ^ k[i] else if i == |t| then 0x80 ^ k[i] else k[i]
  {
    PaddingAt(t, i);
    hide Padding, Xor;
    XorIndex(Padding(t), k, i);
    ZeroMask(k[i]);
  }

  lemma XorIndex(a: Block, b: Block, i: nat)
    requires i < 16
    ensures Xor(a, b)[i] == a[i] ^ b[i]
  {
  }

  lemma ZeroMask(b: bv8)
    ensures 0 ^ b == b
  {
  }

  lemma PaddingAt(t: Bytes, i: nat)
    requires |t| < 16 && i < 16
    ensures Padding(t)[i] == if i < |t| then t[i] else if i == |t| then 0x80 else 0
  {
  }

  /** The register xored with the message block that starts at pos. */
  method XorBlock(r: Request, pos: uint16, x: Block) returns (y: Block)
    requires r.Valid() && pos + 16 <= r.size
    ensures y == Xor(x, r.Text()[pos..pos + 16])
  {
    var data := new bv8[16];
    var i := 0;
    while i < 16
      invariant 0 <= i <= 16
      invariant forall j :: 0 <= j < i ==> data[j] == x[j] ^ r.GetByte(pos + j)
    {
      data[i] := x[i] ^ r.GetByte(pos + i);
      i := i + 1;
    }
    y := data[..];
    assert y == Xor(x, r.Text()[pos..pos + 16]);
  }

  lemma NextBlock(aes: Cipher, key: Block, x: Block, m: Bytes, n: nat)
    requires 16 * (n + 1) <= |m|
    ensures Cbc(aes, key, x, m[..16 * (n + 1)])
         == aes(key, Xor(Cbc(aes, key, x, m[..16 * n]), m[16 * n..16 * n + 16]))
  {
    var b := m[16 * n..16 * n + 16];
    assert m[..16 * (n + 1)] == m[..16 * n] + b;
    CbcAppend(aes, key, x, m[..16 * n], b);
    CbcOne(aes, key, Cbc(aes, key, x, m[..16 * n]), b);
  }

  /** The whole computation in one go. */
  method Calc(aes: Cipher, r: Request) returns (hash: Block)
    requires r.Valid()
    ensures hash == Cmac(aes, r.key, r.Text())
    ensures IsMac(aes, r.key, r.Text(), hash)
  {
    hide Subkey, Xor, IsMac, MaskedLast, Cbc;
    var k0 := aes(r.key, Zeros(16));
    var k1 := CalcSubkey(k0);
    var k2 := CalcSubkey(k1);
    var blockCount := (r.size + 15) / 16;
    if blockCount == 0 {
      blockCount := 1;
    }
    var x: Block := Zeros(16);
    ghost var m := r.Text();
    var block := 0;
    assert m[..0] == [];
    CbcNothing(aes, r.key, Zeros(16));
    while block < blockCount - 1
      invariant 0 <= block <= blockCount - 1
      invariant 16 * block <= |m| && x == Cbc(aes, r.key, Zeros(16), m[..16 * block])
    {
      NextBlock(aes, r.key, Zeros(16), m, block);
      var y := XorBlock(r, 16 * block, x);
      x := aes(r.key, y);
      block := block + 1;
    }
    var last := CalcLastBlock(r, k1, k2);
    hash := aes(r.key, Xor(x, last));
    CmacIsMac(aes, r.key, m, hash);
  }
}
