/** The incremental AES-CCM request: one object carried through digest, encrypt and decrypt
    calls, processed block by block by the scheduler until the request is done. */
module Ccm {
  import opened Widths
  import opened Sequences
  import opened Octets
  import opened Blocks
  import opened Rfc3610

  datatype State =
    | CalculateX1 | W4X1 | CalculateAadXn | W4AadXn | CalculateXn | W4Xn
    | CalculateS0 | W4S0 | CalculateSn | W4Sn

  datatype Operation = DigestBlock | EncryptBlock | DecryptBlock

  /** The registers of a request at one moment; contracts below are updates of this record,
      so what a contract does not mention is unchanged. */
  datatype Regs = Regs(operation: Operation, state: State, input: array<bv8>, inputPos: nat,
                       output: array<bv8>, outputPos: nat, aad: Bytes, msg: Bytes, aadOffset: int,
                       messageLen: int, counter: int, blockLen: int,
                       aadRemainder: int, done: bool)

  function NextBlock(r: Regs, whenDone: State): Regs
    requires 0 <= r.blockLen
  {
    var n := if r.blockLen < 16 then r.blockLen else 16;
    var s := r.(counter := r.counter + 1, inputPos := r.inputPos + n, outputPos := r.outputPos + n,
                blockLen := r.blockLen - n, messageLen := r.messageLen - n);
    if r.messageLen == n then s.(state := CalculateS0)
    else if r.blockLen == n then s.(state := whenDone, done := true)
    else s.(state := whenDone)
  }

  /** The length bytes, absorbed by the first digest step only. */
  function Head(aadLen: uint16, aadOffset: int): Bytes {
    if aadOffset == 0 then Be16(aadLen) else []
  }

  /** A digest step that takes n input bytes encrypts iff the block is full or holds the last byte. */
  predicate Filled(aadLen: uint16, aadOffset: int, aadRemainder: int, n: nat) {
    var h := |Head(aadLen, aadOffset)|;
    aadOffset + h + n == aadLen + 2 || aadRemainder + h + n == 16
  }

  function AfterAad(aadLen: uint16, r: Regs, n: nat): Regs {
    var h := |Head(aadLen, r.aadOffset)|;
    var f := r.(inputPos := r.inputPos + n, blockLen := r.blockLen - n, aadOffset := r.aadOffset + h + n);
    if !Filled(aadLen, r.aadOffset, r.aadRemainder, n) then f.(aadRemainder := r.aadRemainder + h + n, done := true)
    else if f.aadOffset < aadLen + 2 then f.(aadRemainder := 0, state := CalculateAadXn)
    else f.(aadRemainder := 0, state := W4AadXn, done := true)
  }

  function Patch(s: Bytes, at: nat, d: Bytes): (r: Bytes)
    requires at + |d| <= |s|
    ensures |r| == |s|
  {
    s[..at] + d + s[at + |d|..]
  }

  /** The flags assembled with shifts are the sum section 2.2 of RFC 3610 gives. */
  lemma FlagsByte(adata: bool, m: uint8)
    requires 4 <= m <= 16 && m % 2 == 0
    ensures ((if adata then 1 else 0) << 6) | (((m - 2) / 2) as bv8 << 3) | 1
            == Flags(adata, m)
  {
    match (m - 2) / 2 {
      case 1 => case 2 => case 3 => case 4 => case 5 => case 6 => case 7 =>
    }
  }

  lemma XorAtIs(x: Block, y: Block, at: nat, d: Bytes)
    requires at + |d| <= 16
    requires forall j :: 0 <= j < 16 ==> y[j] == if at <= j < at + |d| then x[j] ^ d[j - at] else x[j]
    ensures y == XorAt(x, at, d)
  {
  }

  lemma XorAtFront(x: Block, d: Bytes, i: nat)
    requires i < |d| <= 16
    ensures XorAt(x, 0, d)[i] == d[i] ^ x[i]
  {
  }

  lemma PatchIs(s: Bytes, t: Bytes, at: nat, d: Bytes)
    requires at + |d| <= |s| == |t|
    requires forall j :: 0 <= j < |s| ==> t[j] == if at <= j < at + |d| then d[j - at] else s[j]
    ensures t == Patch(s, at, d)
  {
  }

  /** Xors n bytes of src into x. */
  method XorInto(x: array<bv8>, at: nat, src: array<bv8>, from: nat, n: nat)
    requires x.Length == 16 && at + n <= 16 && from + n <= src.Length && src != x
    modifies x
    ensures x[..] == XorAt(old(x[..]), at, src[from..from + n])
  {
    ghost var x0 := x[..];
    var i := 0;
    while i < n
      invariant 0 <= i <= n
      invariant forall j :: 0 <= j < 16 ==> x[j] == if at <= j < at + i then x0[j] ^ src[from + j - at] else x0[j]
    {
      x[at + i] := x[at + i] ^ src[from + i];
      i := i + 1;
    }
    XorAtIs(x0, x[..], at, src[from..from + n]);
  }

  /** Writes n input bytes xored with key stream; input and output may be the same place. */
  method XorOut(input: array<bv8>, inputPos: nat, output: array<bv8>, outputPos: nat, data: Block, n: nat)
    requires n <= 16 && inputPos + n <= input.Length && outputPos + n <= output.Length
    requires input != output || inputPos == outputPos
    modifies output
    ensures output[..] == Patch(old(output[..]), outputPos, XorAt(data, 0, old(input[inputPos..inputPos + n]))[..n])
    ensures input[inputPos + n..] == old(input[inputPos + n..])
  {
    hide Patch, XorAt;
    var i := 0;
    ghost var out0, in0 := output[..], input[inputPos..inputPos + n];
    ghost var enc := XorAt(data, 0, in0)[..n];
    while i < n
      invariant 0 <= i <= n
      invariant forall j :: i <= j < n ==> input[inputPos + j] == in0[j]
      invariant forall j :: 0 <= j < output.Length ==>
        output[j] == if outputPos <= j < outputPos + i then enc[j - outputPos] else out0[j]
    {
      XorAtFront(data, in0, i);
      output[outputPos + i] := input[inputPos + i] ^ data[i];
      i := i + 1;
    }
    PatchIs(out0, output[..], outputPos, enc);
  }

  /** A copy of x with n plaintext bytes xored in. */
  method Mix(x: array<bv8>, plaintext: array<bv8>, at: nat, n: nat) returns (b: Block)
    requires x.Length == 16 && n <= 16 && at + n <= plaintext.Length
    ensures b == XorAt(x[..], 0, plaintext[at..at + n])
  {
    hide XorAt;
    var buffer := new bv8[16];
    var i := 0;
    while i < n
      invariant 0 <= i <= n
      invariant forall j :: 0 <= j < i ==> buffer[j] == x[j] ^ plaintext[at + j]
    {
      buffer[i] := x[i] ^ plaintext[at + i];
      i := i + 1;
    }
    forall j | n <= j < 16 {
      buffer[j] := x[j];
    }
    b := buffer[..];
    XorAtIs(x[..], b, 0, plaintext[at..at + n]);
  }

  method Store(x: array<bv8>, b: Block)
    requires x.Length == 16
    modifies x
    ensures x[..] == b
  {
    forall i | 0 <= i < 16 {
      x[i] := b[i];
    }
  }

  lemma Slices(s: Bytes, lo: nat, hi: nat, d: Bytes, k: nat, n: nat)
    requires lo + n <= hi <= |s| && k + n <= |d| && s[lo..hi] == d[k..]
    ensures s[lo..lo + n] == d[k..k + n] && s[lo + n..hi] == d[k + n..]
  {
    assert s[lo..lo + n] == s[lo..hi][..n] && s[lo + n..hi] == s[lo..hi][n..];
  }

  lemma SameTail(s: Bytes, t: Bytes, lo: nat, hi: nat)
    requires lo <= hi <= |s| == |t| && t[lo..] == s[lo..]
    ensures t[lo..hi] == s[lo..hi]
  {
    assert t[lo..hi] == t[lo..][..hi - lo] && s[lo..hi] == s[lo..][..hi - lo];
  }

  lemma PatchRead(s: Bytes, at: nat, d: Bytes, k: nat, n: nat)
    requires at + |d| <= |s| && k + n <= |d|
    ensures Patch(s, at, d)[at + k..at + k + n] == d[k..k + n]
  {
  }

  lemma PatchGrow(s: Bytes, at: nat, d: Bytes, k: nat, n: nat)
    requires at + |d| <= |s| && k + n <= |d|
    ensures Patch(Patch(s, at, d[..k]), at + k, d[k..k + n]) == Patch(s, at, d[..k + n])
  {
  }

  class CcmRequest {
    const aes: Cipher
    const key: Block
    const nonce: Bytes
    const aadLen: uint16
    const authLen: uint8
    const x: array<bv8>
    var operation: Operation
    var state: State
    var input: array<bv8>
    var inputPos: nat
    var output: array<bv8>
    var outputPos: nat
    var aadOffset: int
    var messageLen: uint16
    var counter: uint16
    var blockLen: uint16
    var aadRemainder: int
    var done: bool   // set where the source pops the request and fires its callback

    ghost const total: uint16
    ghost var aad: Bytes
    ghost var msg: Bytes

    ghost function P(): Params { Params(key, nonce, total, aadLen, authLen) }

    ghost predicate Shape()
      reads this, x
    {
      x.Length == 16 && Legal(P())
    }

    ghost function Now(): Regs
      reads this
    {
      Regs(operation, state, input, inputPos, output, outputPos, aad, msg, aadOffset, messageLen, counter, blockLen,
           aadRemainder, done)
    }

    /** Between two API calls: the registers are a function of everything absorbed so far,
        whatever the calls that delivered it. */
    ghost predicate Valid()
      reads this, x
    {
      Shape() && Between(aes, P(), Now(), x[..])
    }

    constructor Init(aes: Cipher, key: Block, nonce: Bytes, messageLen: uint16, aadLen: uint16, authLen: uint8)
      requires Legal(Params(key, nonce, messageLen, aadLen, authLen))
      ensures Valid() && fresh(x) && P() == Params(key, nonce, messageLen, aadLen, authLen)
      ensures this.aes == aes && aad == [] && msg == []
    {
      this.aes, this.key, this.nonce, this.messageLen, this.total := aes, key, nonce, messageLen, messageLen;
      this.aadLen, this.authLen := aadLen, authLen;
      aadOffset, counter, state := 0, 1, CalculateX1;
      aad, msg := [], [];
      x := new bv8[16];
      input, output := new bv8[0], new bv8[0];
      operation, inputPos, outputPos, blockLen, aadRemainder, done := DigestBlock, 0, 0, 0, 0, false;
    }

    /** Everything a step may change besides the register, spelled out field by field. */
    twostate predicate Kept()
      reads this
    {
      && operation == old(operation) && input == old(input) && output == old(output)
      && aad == old(aad) && msg == old(msg)
    }

    /** Only the digest bookkeeping moved: h length bytes and n input bytes went into the register. */
    twostate predicate Took(h: nat, n: nat)
      reads this
    {
      && Kept() && state == old(state) && outputPos == old(outputPos) && done == old(done)
      && messageLen == old(messageLen) && counter == old(counter)
      && inputPos == old(inputPos) + n && blockLen == old(blockLen) - n
      && aadOffset == old(aadOffset) + h + n && aadRemainder == old(aadRemainder) + h + n
    }

    twostate predicate Moved(s: State)
      reads this
    {
      && Kept() && state == s && inputPos == old(inputPos) && outputPos == old(outputPos) && done == old(done)
      && messageLen == old(messageLen) && counter == old(counter) && blockLen == old(blockLen)
      && aadOffset == old(aadOffset) && aadRemainder == old(aadRemainder)
    }

    /** A digest step took n input bytes; the block was encrypted if it was full or held the last byte. */
    twostate predicate Digested(n: nat)
      reads this
    {
      var h := |Head(aadLen, old(aadOffset))|;
      var full := Filled(aadLen, old(aadOffset), old(aadRemainder), n);
      && Kept() && outputPos == old(outputPos) && messageLen == old(messageLen) && counter == old(counter)
      && inputPos == old(inputPos) + n && blockLen == old(blockLen) - n && aadOffset == old(aadOffset) + h + n
      && aadRemainder == (if full then 0 else old(aadRemainder) + h + n)
      && state == (if !full then old(state) else if aadOffset < aadLen + 2 then CalculateAadXn else W4AadXn)
      && done == (if full && aadOffset < aadLen + 2 then old(done) else true)
    }

    /** An API call filled in the request. */
    twostate predicate Requested(op: Operation, len: uint16, first: State)
      reads this
    {
      && aad == old(aad) && msg == old(msg) && messageLen == old(messageLen) && counter == old(counter)
      && aadOffset == old(aadOffset) && aadRemainder == old(aadRemainder)
      && operation == op && blockLen == len && !done && state == first
    }

    /** One block is finished. */
    twostate predicate Advanced(whenDone: State)
      reads this
    {
      var n := Min(old(blockLen), 16);
      && Kept() && aadOffset == old(aadOffset) && aadRemainder == old(aadRemainder)
      && counter == old(counter) + 1 && inputPos == old(inputPos) + n && outputPos == old(outputPos) + n
      && blockLen == old(blockLen) - n && messageLen == old(messageLen) - n
      && state == (if messageLen == 0 then CalculateS0 else whenDone)
      && done == (old(done) || (messageLen != 0 && blockLen == 0))
    }

    method SetupB0() returns (b0: Block)
      requires Shape() && messageLen == total
      ensures b0 == B0(P())
      ensures b0[0] as int == (if aadLen > 0 then 64 else 0) + 8 * ((authLen - 2) / 2) + 1
      ensures b0[1..14] == nonce && 256 * (b0[14] as int) + (b0[15] as int) == messageLen
    {
      hide Flags, Be16;
      var mPrime: bv8 := ((authLen - 2) / 2) as bv8;
      var adata: bv8 := if aadLen != 0 then 1 else 0;
      FlagsByte(aadLen != 0, authLen);
      b0 := [(adata << 6) | (mPrime << 3) | 1] + nonce + Be16(messageLen);
      B0Fields(P(), b0);
    }

    method CalcX1()
      requires Shape() && messageLen == total
      modifies this, x
      ensures x[..] == aes(key, B0(P()))
      ensures Now() == old(Now()).(
                state := match operation
                         case DigestBlock => CalculateAadXn
                         case EncryptBlock => CalculateXn
                         case DecryptBlock => CalculateSn,
                aadRemainder := if operation.DigestBlock? then 0 else old(aadRemainder))
    {
      state := W4X1;
      var b0 := SetupB0();
      Store(x, aes(key, b0));
      match operation {
        case DigestBlock => aadRemainder := 0; state := CalculateAadXn;
        case DecryptBlock => state := CalculateSn;
        case EncryptBlock => state := CalculateXn;
      }
    }

    /** The first call for a request also absorbs the two length bytes. */
    method StoreAadLength()
      requires x.Length == 16 && 0 <= aadRemainder < 16 && (aadOffset == 0 ==> aadRemainder == 0)
      modifies this, x
      ensures x[..] == XorAt(old(x[..]), old(aadRemainder), Head(aadLen, old(aadOffset)))
      ensures Took(|Head(aadLen, old(aadOffset))|, 0)
    {
      ghost var x0 := x[..];
      if aadOffset == 0 {
        var len := Be16(aadLen);
        x[0] := x[0] ^ len[0];
        x[1] := x[1] ^ len[1];
        aadRemainder := aadRemainder + 2;
        aadOffset := aadOffset + 2;
      }
      assert x[..] == XorAt(x0, old(aadRemainder), Head(aadLen, old(aadOffset)));
    }

    /** Fills the current block from the input, as far as it goes. */
    method FillFromInput() returns (ghost n: nat)
      requires x.Length == 16 && 0 <= aadRemainder <= 16
      requires inputPos + blockLen <= input.Length && input != x
      modifies this, x
      ensures n == Min(16 - old(aadRemainder), old(blockLen))
      ensures x[..] == XorAt(old(x[..]), old(aadRemainder), old(input[inputPos..inputPos + n]))
      ensures Took(0, n)
    {
      var bytesToCopy := Min(16 - aadRemainder, blockLen);
      XorInto(x, aadRemainder, input, inputPos, bytesToCopy);
      n := bytesToCopy;
      aadRemainder := aadRemainder + bytesToCopy;
      inputPos := inputPos + bytesToCopy;
      aadOffset := aadOffset + bytesToCopy;
      blockLen := blockLen - bytesToCopy;
    }

    /** Length bytes, then input: everything that goes into the current block. */
    method TakeAad() returns (ghost n: nat)
      requires x.Length == 16 && 0 <= aadRemainder < 16 && input != x
      requires aadOffset == 0 ==> aadRemainder == 0
      requires inputPos + blockLen <= input.Length
      modifies this, x
      ensures n == Min(16 - old(aadRemainder) - |Head(aadLen, old(aadOffset))|, old(blockLen))
      ensures Took(|Head(aadLen, old(aadOffset))|, n)
      ensures x[..] == XorAt(old(x[..]), old(aadRemainder),
                         Head(aadLen, old(aadOffset)) + old(input[inputPos..inputPos + n]))
    {
      hide XorAt, Be16;
      StoreAadLength();
      n := FillFromInput();
      XorAtAppend(old(x[..]), old(aadRemainder), Head(aadLen, old(aadOffset)), old(input[inputPos..inputPos + n]));
    }

    method CalcAadXn() returns (ghost n: nat)
      requires x.Length == 16 && 0 <= aadRemainder < 16 && input != x
      requires aadOffset == 0 ==> aadRemainder == 0
      requires inputPos + blockLen <= input.Length
      requires 0 <= aadOffset && |Head(aadLen, aadOffset)| + aadOffset + blockLen <= aadLen + 2
      modifies this, x
      ensures n == Min(16 - old(aadRemainder) - |Head(aadLen, old(aadOffset))|, old(blockLen))
      ensures Digested(n)
      ensures var y := XorAt(old(x[..]), old(aadRemainder),
                         Head(aadLen, old(aadOffset)) + old(input[inputPos..inputPos + n]));
              x[..] == if Filled(aadLen, old(aadOffset), old(aadRemainder), n) then aes(key, y) else y
    {
      n := TakeAad();
      var full := aadRemainder == 16 || aadOffset == aadLen + 2;
      if !full {
        done := true;
        return;
      }
      aadRemainder := 0;
      state := W4AadXn;
      Store(x, aes(key, x[..]));
      if aadOffset < aadLen + 2 {
        state := CalculateAadXn;
      } else {
        done := true;
      }
    }

    method Next(whenDone: State)
      requires blockLen <= messageLen && counter < 0xffff
      modifies this
      ensures Advanced(whenDone)
    {
      var n := Min(blockLen, 16);
      counter, inputPos, outputPos := counter + 1, inputPos + n, outputPos + n;
      blockLen, messageLen := blockLen - n, messageLen - n;
      if messageLen == 0 {
        state := CalculateS0;
      } else {
        state := whenDone;
        if blockLen == 0 {
          done := true;
        }
      }
    }

    method CalcXn(plaintext: array<bv8>, at: nat)
      requires x.Length == 16 && !operation.DigestBlock?
      requires at + Min(blockLen, 16) <= plaintext.Length
      requires blockLen <= messageLen && counter < 0xffff
      modifies this, x
      ensures x[..] == aes(key, XorAt(old(x[..]), 0, old(plaintext[at..at + Min(blockLen, 16)])))
      ensures if old(operation).EncryptBlock? then Moved(CalculateSn) else Advanced(CalculateSn)
    {
      state := W4Xn;
      var b := Mix(x, plaintext, at, Min(blockLen, 16));
      Store(x, aes(key, b));
      if operation.DecryptBlock? {
        state := CalculateSn;
        Next(CalculateSn);
      } else {
        state := CalculateSn;
      }
    }

    method CalcSn()
      requires Shape() && !operation.DigestBlock?
      requires output != x && input != x
      requires inputPos + Min(blockLen, 16) <= input.Length && outputPos + Min(blockLen, 16) <= output.Length
      requires input != output || inputPos == outputPos
      requires blockLen <= messageLen && counter < 0xffff
      modifies this, output
      ensures var n := Min(old(blockLen), 16);
              output[..] == Patch(old(output[..]), old(outputPos),
                              XorAt(S(aes, P(), old(counter)), 0, old(input[inputPos..inputPos + n]))[..n])
      ensures if old(operation).EncryptBlock? then Advanced(CalculateXn) else Moved(CalculateXn)
      ensures var lo := old(inputPos) + Min(old(blockLen), 16);
              lo <= input.Length && input[lo..] == old(input[inputPos + Min(blockLen, 16)..])
    {
      hide XorAt, Patch, Be16;
      XorOut(input, inputPos, output, outputPos, aes(key, [1] + nonce + Be16(counter)), Min(blockLen, 16));
      if operation.DecryptBlock? {
        state := CalculateXn;
      } else {
        Next(CalculateXn);
      }
    }

    method CalcS0()
      requires Shape()
      modifies this, x
      ensures x[..] == Xor(old(x[..]), S(aes, P(), 0))
      ensures Now() == old(Now()).(state := W4S0, done := true)
    {
      state := W4S0;
      ghost var x0 := x[..];
      var data := new bv8[16];
      Store(data, aes(key, [1] + nonce + Be16(0)));
      XorInto(x, 0, data, 0, 16);
      assert x[..] == Xor(x0, data[..]);
      done := true;
    }

    method DigestStep(ghost piece: Bytes, ghost d: Bytes) returns (ghost e: Bytes)
      requires Shape() && input != x && Digesting(aes, P(), Now(), x[..], piece, d) && !done
      requires inputPos + blockLen <= input.Length
      requires input[inputPos..inputPos + blockLen] == piece[|piece| - blockLen..]
      modifies this, x
      ensures Digesting(aes, P(), Now(), x[..], piece, e)
      ensures aad == old(aad) && msg == old(msg) && input == old(input)
      ensures inputPos + blockLen == old(inputPos + blockLen) && blockLen <= old(blockLen)
      ensures Left(Now()) < Left(old(Now()))
    {
      hide Digesting, Filled, XorAt, Be16, B0;
      ghost var r, x0 := Now(), x[..];
      DigestingFacts(aes, P(), r, x0, piece, d);
      if state == CalculateX1 {
        DigestAfterX1(aes, P(), r, x0, piece);
        CalcX1();
        e := [];
      } else {
        ghost var n := CalcAadXn();
        ghost var k := |piece| - r.blockLen;
        assert old(input[inputPos..inputPos + n]) == old(input[inputPos..inputPos + blockLen])[..n];
        assert piece[|piece| - r.blockLen..][..n] == piece[k..k + n];
        e := d + (Head(aadLen, r.aadOffset) + piece[k..k + n]);
        assert Now() == AfterAad(aadLen, r, n);
        DigestAfterAad(aes, P(), r, x0, piece, d, n, x[..]);
      }
    }

    method SetDigest(len: uint16, data: array<bv8>, from: nat)
      modifies this
      ensures Requested(DigestBlock, len, old(state))
      ensures input == data && inputPos == from && output == old(output) && outputPos == old(outputPos)
    {
      operation, blockLen, input, inputPos, done := DigestBlock, len, data, from, false;
    }

    /** Absorbs one more piece of the authenticated data; legal until all of it has arrived. */
    method Digest(data: array<bv8>, from: nat, len: uint16)
      requires Valid() && msg == [] && |aad| < aadLen && |aad| + len <= aadLen
      requires data != x && from + len <= data.Length
      modifies this, x
      ensures Valid() && done && msg == [] && aad == old(aad) + data[from..from + len]
    {
      hide Digesting, Between, XorAt, Be16, B0;
      ghost var r0 := Now();
      SetDigest(len, data, from);
      ghost var piece := data[from..from + len];
      ghost var d := if aadOffset == 0 then [] else Be16(aadLen) + aad;
      DigestStart(aes, P(), r0, Now(), x[..], piece);
      while !done
        invariant Shape() && Digesting(aes, P(), Now(), x[..], piece, d) && aad == old(aad)
        invariant input == data && data[..] == old(data[..]) && msg == []
        invariant inputPos + blockLen == from + len && blockLen <= len
        decreases Left(Now())
      {
        assert data[inputPos..from + len] == piece[len - blockLen..];
        d := DigestStep(piece, d);
      }
      DigestEnd(aes, P(), Now(), x[..], piece, d);
      aad := aad + piece;
    }

    method XnBlock(plaintext: array<bv8>, at: nat)
      requires x.Length == 16 && !operation.DigestBlock?
      requires at + Min(blockLen, 16) <= plaintext.Length
      requires blockLen <= messageLen && counter < 0xffff
      modifies this, x
      ensures x[..] == aes(key, XorAt(old(x[..]), 0, old(plaintext[at..at + Min(blockLen, 16)])))
      ensures Now() == if old(operation).EncryptBlock? then old(Now()).(state := CalculateSn)
                       else NextBlock(old(Now()), CalculateSn)
    {
      CalcXn(plaintext, at);
    }

    method SnBlock()
      requires Shape() && !operation.DigestBlock?
      requires output != x && input != x
      requires inputPos + Min(blockLen, 16) <= input.Length && outputPos + Min(blockLen, 16) <= output.Length
      requires input != output || inputPos == outputPos
      requires blockLen <= messageLen && counter < 0xffff
      modifies this, output
      ensures var n := Min(old(blockLen), 16);
              output[..] == Patch(old(output[..]), old(outputPos),
                              XorAt(S(aes, P(), old(counter)), 0, old(input[inputPos..inputPos + n]))[..n])
      ensures Now() == if old(operation).EncryptBlock? then NextBlock(old(Now()), CalculateXn)
                       else old(Now()).(state := CalculateXn)
      ensures input == old(input)
      ensures var lo := old(inputPos) + Min(old(blockLen), 16);
              lo <= input.Length && input[lo..] == old(input[inputPos + Min(blockLen, 16)..])
    {
      hide XorAt, Patch, Be16, S;
      CalcSn();
    }

    /** In the middle of an encrypt or decrypt call over `data`; the output array held `out0` before it. */
    ghost predicate InMessage(m0: Bytes, data: Bytes, out0: Bytes, at: nat)
      reads this, x, input, output
    {
      && Shape() && input != x && output != x && (input == output ==> inputPos == outputPos)
      && Midway(aes, P(), Now(), x[..], input[..], output[..], m0, data, out0, at)
    }

    method StepX1(ghost m0: Bytes, ghost data: Bytes, ghost out0: Bytes, ghost at: nat)
      requires InMessage(m0, data, out0, at) && state == CalculateX1
      modifies this, x
      ensures InMessage(m0, data, out0, at)
      ensures SameBuffers(old(Now()), Now()) && Rank(Now()) < Rank(old(Now()))
    {
      hide Midway, B0, Rank, Legal;
      MidwayFacts(aes, P(), Now(), x[..], input[..], output[..], m0, data, out0, at);
      MidwayX1(aes, P(), Now(), x[..], input[..], output[..], m0, data, out0, at);
      CalcX1();
    }

    method StepXn(ghost m0: Bytes, ghost data: Bytes, ghost out0: Bytes, ghost at: nat)
      requires InMessage(m0, data, out0, at) && state == CalculateXn && !done
      modifies this, x
      ensures InMessage(m0, data, out0, at)
      ensures SameBuffers(old(Now()), Now()) && Rank(Now()) < Rank(old(Now()))
    {
      hide Midway, NextBlock, XorAt, Rank, Legal;
      MidwayFacts(aes, P(), Now(), x[..], input[..], output[..], m0, data, out0, at);
      MidwayXn(aes, P(), Now(), x[..], input[..], output[..], m0, data, out0, at);
      if operation.EncryptBlock? {
        XnBlock(input, inputPos);
      } else {
        XnBlock(output, outputPos);
      }
    }

    method StepSn(ghost m0: Bytes, ghost data: Bytes, ghost out0: Bytes, ghost at: nat)
      requires InMessage(m0, data, out0, at) && state == CalculateSn && !done
      modifies this, output
      ensures InMessage(m0, data, out0, at)
      ensures SameBuffers(old(Now()), Now()) && Rank(Now()) < Rank(old(Now()))
    {
      hide Midway, NextBlock, XorAt, Rank, Legal, S, Patch;
      ghost var r, inp, out := Now(), input[..], output[..];
      MidwayFacts(aes, P(), r, x[..], inp, out, m0, data, out0, at);
      SnBlock();
      MidwaySn(aes, P(), r, x[..], inp, out, input[..], output[..], m0, data, out0, at);
    }

    method StepS0(ghost m0: Bytes, ghost data: Bytes, ghost out0: Bytes, ghost at: nat)
      requires InMessage(m0, data, out0, at) && state == CalculateS0
      modifies this, x
      ensures InMessage(m0, data, out0, at)
      ensures SameBuffers(old(Now()), Now()) && Rank(Now()) < Rank(old(Now()))
    {
      hide Midway, Rank, Legal, S;
      MidwayS0(aes, P(), Now(), x[..], input[..], output[..], m0, data, out0, at);
      CalcS0();
    }

    /** The iterations of the scheduler loop until the request is done. */
    method Run(ghost m0: Bytes, ghost data: Bytes, ghost out0: Bytes, ghost at: nat)
      requires InMessage(m0, data, out0, at)
      modifies this, x, output
      ensures InMessage(m0, data, out0, at) && done && SameBuffers(old(Now()), Now())
    {
      hide Midway, Rank, Legal;
      ghost var r0 := Now();
      while !done
        invariant InMessage(m0, data, out0, at) && SameBuffers(r0, Now())
        decreases Rank(Now())
      {
        MidwayFacts(aes, P(), Now(), x[..], input[..], output[..], m0, data, out0, at);
        match state {
          case CalculateX1 => StepX1(m0, data, out0, at);
          case CalculateXn => StepXn(m0, data, out0, at);
          case CalculateSn => StepSn(m0, data, out0, at);
          case CalculateS0 => StepS0(m0, data, out0, at);
          case _ => assert false;
        }
      }
    }

    method SetRequest(op: Operation, len: uint16, source: array<bv8>, from: nat, target: array<bv8>, at: nat)
      modifies this
      ensures Requested(op, len, if old(state) == CalculateX1 then CalculateX1 else First(op))
      ensures input == source && output == target && inputPos == from && outputPos == at
    {
      operation, done, blockLen, input, output, inputPos, outputPos := op, false, len, source, target, from, at;
      if state != CalculateX1 {
        state := First(op);
      }
    }

    /** Hands the request to the scheduler. */
    method Submit(op: Operation, len: uint16, source: array<bv8>, from: nat, target: array<bv8>, at: nat)
      requires Valid() && Accepts(len) && !op.DigestBlock? && source != x && target != x
      requires from + len <= source.Length && at + len <= target.Length && (source == target ==> from == at)
      modifies this
      ensures InMessage(msg, source[from..from + len], target[..], at)
      ensures input == source && output == target && operation == op && aad == old(aad) && msg == old(msg)
    {
      hide Streaming, XOk, Ctr, Patch, Mac, Between, Ahead, OutCount, Legal;
      ghost var r0, data := Now(), source[from..from + len];
      SetRequest(op, len, source, from, target, at);
      MessageStart(aes, P(), r0, Now(), x[..], data, target[..], at);
      assert source[..][from..from + len] == data == data[0..];
    }

    /** Encrypts and authenticates `len` plaintext bytes, in place if the buffers coincide. */
    method EncryptBlock(len: uint16, plaintext: array<bv8>, from: nat, ciphertext: array<bv8>, at: nat)
      requires Valid() && Accepts(len) && plaintext != x && ciphertext != x
      requires from + len <= plaintext.Length && at + len <= ciphertext.Length
      requires plaintext == ciphertext ==> from == at
      modifies this, x, ciphertext
      ensures Valid() && done && aad == old(aad) && msg == old(msg + plaintext[from..from + len])
      ensures ciphertext[..]
              == Patch(old(ciphertext[..]), at, Ctr(aes, P(), |old(msg)|, old(plaintext[from..from + len])))
    {
      hide Streaming, XOk, Ctr, Patch, Mac, Between, Ahead, OutCount, Legal;
      ghost var m0, data, out0 := msg, plaintext[from..from + len], ciphertext[..];
      Submit(Operation.EncryptBlock, len, plaintext, from, ciphertext, at);
      Run(m0, data, out0, at);
      MessageEnd(aes, P(), Now(), x[..], m0, data);
      msg := msg + data;
    }

    /** Decrypts `len` ciphertext bytes and authenticates the plaintext. */
    method DecryptBlock(len: uint16, ciphertext: array<bv8>, from: nat, plaintext: array<bv8>, at: nat)
      requires Valid() && Accepts(len) && plaintext != x && ciphertext != x
      requires from + len <= ciphertext.Length && at + len <= plaintext.Length
      requires plaintext == ciphertext ==> from == at
      modifies this, x, plaintext
      ensures Valid() && done && aad == old(aad)
      ensures var m := Ctr(aes, P(), |old(msg)|, old(ciphertext[from..from + len]));
              msg == old(msg) + m && plaintext[..] == Patch(old(plaintext[..]), at, m)
    {
      hide Streaming, XOk, Ctr, Patch, Mac, Between, Ahead, OutCount, Legal;
      ghost var m0, data, out0 := msg, ciphertext[from..from + len], plaintext[..];
      Submit(Operation.DecryptBlock, len, ciphertext, from, plaintext, at);
      Run(m0, data, out0, at);
      MessageEnd(aes, P(), Now(), x[..], m0, data);
      msg := msg + Plain(aes, P(), operation, m0, data);
    }

    /** What the API allows: all data authenticated, and whole blocks except in the last call. */
    ghost predicate Accepts(len: uint16)
      reads this
    {
      |aad| == aadLen && 0 < len && |msg| + len <= total && (len % 16 == 0 || |msg| + len == total)
    }

    /** An encrypt or decrypt call without data on a request for an empty message: the loop encrypts the
        register once more before it adds S_0, whichever half of a block it does first. */
    method ProcessNothing(op: Operation, buffer: array<bv8>)
      requires Valid() && total == 0 && |aad| == aadLen && buffer != x && !op.DigestBlock?
      modifies this, x, buffer
      ensures done && aad == old(aad)
      ensures x[..] == Xor(aes(key, Mac(aes, P(), aad, [])), S(aes, P(), 0))
    {
      hide Mac, XorAt, S, Patch;
      SetRequest(op, 0, buffer, 0, buffer, 0);
      if state == CalculateX1 {
        MacOfNothing(aes, P());
        CalcX1();
      }
      ghost var x0 := x[..];
      if operation.EncryptBlock? {
        CalcXn(input, inputPos);
        XorNothing(x0, input[0..0]);
        CalcSn();
      } else {
        CalcSn();
        CalcXn(output, outputPos);
        XorNothing(x0, output[0..0]);
      }
      CalcS0();
    }

    method GetAuthenticationValue() returns (t: Bytes)
      requires Shape()
      ensures t == x[..authLen]
    {
      t := x[..authLen];
    }
  }

  // ----- Encrypt and decrypt calls, on register values

  /** Encryption authenticates a block and then encrypts it, decryption decrypts and then authenticates. */
  function First(op: Operation): State {
    match op case DigestBlock => CalculateAadXn case EncryptBlock => CalculateXn case DecryptBlock => CalculateSn
  }

  function Second(op: Operation): State {
    if op.EncryptBlock? then CalculateSn else CalculateXn
  }

  /** How far the second half of a block's work is ahead of the block pointer. */
  function Ahead(r: Regs): int {
    if r.operation.DecryptBlock? && r.state == CalculateXn then (if r.blockLen < 16 then r.blockLen else 16) else 0
  }

  function OutCount(r: Regs, len: nat): int {
    len - r.blockLen + Ahead(r)
  }

  function MacCount(r: Regs, len: nat): int {
    len - r.blockLen +
    if r.operation.EncryptBlock? && r.state == CalculateSn then (if r.blockLen < 16 then r.blockLen else 16) else 0
  }

  function Rank(r: Regs): nat {
    if r.done || r.blockLen < 0 then 0
    else 2 * r.blockLen +
         if r.state == CalculateX1 then 4 else if r.state == First(r.operation) then 3
         else if r.state == Second(r.operation) then 2 else if r.state == CalculateS0 then 1 else 0
  }

  predicate SameBuffers(r: Regs, s: Regs) {
    r.input == s.input && r.output == s.output && r.aad == s.aad && r.msg == s.msg && r.operation == s.operation
  }

  ghost predicate Streaming(p: Params, r: Regs, m0: Bytes, data: Bytes)
  {
    var k := |data| - r.blockLen;
    && !r.operation.DigestBlock? && |r.aad| == p.aadLen && |data| > 0 && 0 <= r.blockLen <= |data|
    && |m0| % 16 == 0 && |m0| + |data| <= p.messageLen
    && (|data| % 16 == 0 || |m0| + |data| == p.messageLen)
    && r.messageLen == p.messageLen - |m0| - k
    && if r.state == CalculateS0 then r.messageLen == 0 && !r.done
       else if r.state == W4S0 then r.messageLen == 0 && r.done
       else
         && r.messageLen > 0 && (|m0| + k) % 16 == 0 && r.counter == 1 + (|m0| + k) / 16
         && (r.done <==> r.blockLen == 0)
         && (r.state == First(r.operation)
             || (!r.done && r.state == Second(r.operation))
             || (r.state == CalculateX1 && m0 == [] && r.aad == [] && k == 0))
  }

  /** The plaintext of the call: its input when encrypting, its output when decrypting. */
  ghost function Plain(aes: Cipher, p: Params, op: Operation, m0: Bytes, data: Bytes): (m: Bytes)
    requires Legal(p) && |m0| + |data| <= p.messageLen
    ensures |m| == |data|
  {
    if op.EncryptBlock? then data else Ctr(aes, p, |m0|, data)
  }

  ghost predicate XOk(aes: Cipher, p: Params, r: Regs, x: Block, m0: Bytes, data: Bytes)
    requires Legal(p)
  {
    var c := MacCount(r, |data|);
    && |r.aad| < 0xff00 && |m0| + |data| <= p.messageLen && 0 <= c <= |data|
    && var m := m0 + Plain(aes, p, r.operation, m0, data)[..c];
       if r.state == CalculateX1 then true
       else if r.state == W4S0 then x == Xor(Mac(aes, p, r.aad, m), S(aes, p, 0))
       else x == Mac(aes, p, r.aad, m)
  }

  /** From r to s the request came closer to its end and kept its buffers in step. */
  predicate Closer(r: Regs, s: Regs) {
    && SameBuffers(r, s) && Rank(s) < Rank(r)
    && s.outputPos + s.blockLen == r.outputPos + r.blockLen && s.inputPos + s.blockLen == r.inputPos + r.blockLen
    && s.inputPos - r.inputPos == s.outputPos - r.outputPos
  }

  lemma StreamingFacts(p: Params, r: Regs, m0: Bytes, data: Bytes)
    requires Streaming(p, r, m0, data)
    ensures !r.operation.DigestBlock? && 0 <= r.blockLen <= |data|
    ensures !r.done ==> r.state.CalculateX1? || r.state.CalculateXn? || r.state.CalculateSn? || r.state.CalculateS0?
    ensures r.state == CalculateX1 ==> r.messageLen == p.messageLen
    ensures |m0| + |data| <= p.messageLen
    ensures !r.done && r.state != CalculateS0 ==>
              var at := |m0| + |data| - r.blockLen;
              0 < r.blockLen <= r.messageLen && 1 <= r.counter < 0xffff && at % 16 == 0 && r.counter == 1 + at / 16
  {
  }

  lemma AfterX1(aes: Cipher, p: Params, r: Regs, m0: Bytes, data: Bytes)
    requires Legal(p) && Streaming(p, r, m0, data) && r.state == CalculateX1
    ensures Streaming(p, r.(state := First(r.operation)), m0, data)
    ensures XOk(aes, p, r.(state := First(r.operation)), aes(p.key, B0(p)), m0, data)
    ensures Ahead(r.(state := First(r.operation))) == Ahead(r)
    ensures Rank(r.(state := First(r.operation))) < Rank(r)
  {
    assert Formatted([], []) == [];
    assert m0 + Plain(aes, p, r.operation, m0, data)[..0] == [];
  }

  lemma AfterSn(aes: Cipher, p: Params, r: Regs, x: Block, m0: Bytes, data: Bytes)
    requires Legal(p) && Streaming(p, r, m0, data) && XOk(aes, p, r, x, m0, data) && r.state == CalculateSn && !r.done
    ensures Ahead(r) == 0 && OutCount(r, |data|) == |data| - r.blockLen
    ensures var s := if r.operation.EncryptBlock? then NextBlock(r, CalculateXn) else r.(state := CalculateXn);
            && Streaming(p, s, m0, data) && XOk(aes, p, s, x, m0, data)
            && OutCount(s, |data|) == OutCount(r, |data|) + Min(r.blockLen, 16)
            && Closer(r, s) && s.inputPos + Ahead(s) == r.inputPos + Min(r.blockLen, 16)
  {
    hide Mac, Ctr, S, A, B0;
  }

  lemma AfterS0(aes: Cipher, p: Params, r: Regs, x: Block, m0: Bytes, data: Bytes)
    requires Legal(p) && Streaming(p, r, m0, data) && XOk(aes, p, r, x, m0, data) && r.state == CalculateS0
    ensures var s := r.(state := W4S0, done := true);
            Streaming(p, s, m0, data) && XOk(aes, p, s, Xor(x, S(aes, p, 0)), m0, data)
            && OutCount(s, |data|) == OutCount(r, |data|) && Rank(s) < Rank(r)
  {
    hide Mac, Ctr;
  }

  /** The register is that of the bytes worked off, the output shows them, and everything still to be read is
      intact, also when input and output are the same place. */
  ghost predicate Midway(aes: Cipher, p: Params, r: Regs, x: Bytes, inp: Bytes, out: Bytes,
                         m0: Bytes, data: Bytes, out0: Bytes, at: nat)
    requires Legal(p)
  {
    && |x| == 16 && at + |data| <= |out0| && Streaming(p, r, m0, data) && XOk(aes, p, r, x, m0, data)
    && r.outputPos == at + |data| - r.blockLen
    && out == Patch(out0, at, Ctr(aes, p, |m0|, data)[..OutCount(r, |data|)])
    && r.inputPos + r.blockLen <= |inp|
    && inp[r.inputPos + Ahead(r)..r.inputPos + r.blockLen] == data[OutCount(r, |data|)..]
  }

  lemma MidwayFacts(aes: Cipher, p: Params, r: Regs, x: Bytes, inp: Bytes, out: Bytes,
                    m0: Bytes, data: Bytes, out0: Bytes, at: nat)
    requires Legal(p) && Midway(aes, p, r, x, inp, out, m0, data, out0, at)
    ensures !r.operation.DigestBlock? && 0 <= r.blockLen
    ensures !r.done ==> r.state.CalculateX1? || r.state.CalculateXn? || r.state.CalculateSn? || r.state.CalculateS0?
    ensures r.state == CalculateX1 ==> r.messageLen == p.messageLen
    ensures !r.done && r.state != CalculateS0 ==> 0 < r.blockLen <= r.messageLen && 1 <= r.counter < 0xffff
    ensures |m0| + |data| <= p.messageLen && r.inputPos + r.blockLen <= |inp| && r.outputPos + r.blockLen <= |out|
  {
    hide Streaming, XOk, Ctr;
    StreamingFacts(p, r, m0, data);
  }

  lemma MidwayX1(aes: Cipher, p: Params, r: Regs, x: Bytes, inp: Bytes, out: Bytes,
                 m0: Bytes, data: Bytes, out0: Bytes, at: nat)
    requires Legal(p) && Midway(aes, p, r, x, inp, out, m0, data, out0, at) && r.state == CalculateX1
    ensures var s := r.(state := First(r.operation));
            Midway(aes, p, s, aes(p.key, B0(p)), inp, out, m0, data, out0, at) && Rank(s) < Rank(r)
  {
    hide Streaming, XOk, Ctr, Patch, Rank, B0;
    AfterX1(aes, p, r, m0, data);
  }

  /** What is authenticated comes from the input when encrypting, and from the output when decrypting. */
  lemma MidwayXn(aes: Cipher, p: Params, r: Regs, x: Bytes, inp: Bytes, out: Bytes,
                 m0: Bytes, data: Bytes, out0: Bytes, at: nat)
    requires Legal(p) && Midway(aes, p, r, x, inp, out, m0, data, out0, at) && r.state == CalculateXn && !r.done
    ensures r.inputPos + r.blockLen <= |inp| && r.outputPos + r.blockLen <= |out| && 0 < r.blockLen
    ensures var n := Min(r.blockLen, 16);
            var t := if r.operation.EncryptBlock? then inp[r.inputPos..r.inputPos + n]
                     else out[r.outputPos..r.outputPos + n];
            var s := if r.operation.EncryptBlock? then r.(state := CalculateSn) else NextBlock(r, CalculateSn);
            Midway(aes, p, s, aes(p.key, XorAt(x, 0, t)), inp, out, m0, data, out0, at)
            && Rank(s) < Rank(r) && SameBuffers(r, s) && s.inputPos - r.inputPos == s.outputPos - r.outputPos
  {
    hide Streaming, XOk, Ctr, Patch, Mac, XorAt, NextBlock, Ahead, OutCount, Rank;
    StreamingFacts(p, r, m0, data);
    AfterXn(aes, p, r, x, m0, data);
    var k, n := |data| - r.blockLen, Min(r.blockLen, 16);
    if r.operation.EncryptBlock? {
      MidwayXnInput(p, r, inp, data, k, n);
    } else {
      MidwayXnOutput(out, out0, Ctr(aes, p, |m0|, data), at, k, n);
    }
  }

  lemma MidwayXnInput(p: Params, r: Regs, inp: Bytes, data: Bytes, k: nat, n: nat)
    requires 0 <= r.blockLen <= |data| && k == |data| - r.blockLen && n == Min(r.blockLen, 16)
    requires r.operation.EncryptBlock? && r.inputPos + r.blockLen <= |inp|
    requires inp[r.inputPos + Ahead(r)..r.inputPos + r.blockLen] == data[OutCount(r, |data|)..]
    ensures inp[r.inputPos..r.inputPos + n] == data[k..k + n]
  {
    Slices(inp, r.inputPos, r.inputPos + r.blockLen, data, k, n);
  }

  lemma MidwayXnOutput(out: Bytes, out0: Bytes, c: Bytes, at: nat, k: nat, n: nat)
    requires k + n <= |c| && at + |c| <= |out0| && out == Patch(out0, at, c[..k + n])
    ensures out[at + k..at + k + n] == c[k..k + n]
  {
    PatchRead(out0, at, c[..k + n], k, n);
    assert c[..k + n][k..k + n] == c[k..k + n];
  }

  lemma MidwaySn(aes: Cipher, p: Params, r: Regs, x: Bytes, inp: Bytes, out: Bytes, inp': Bytes, out': Bytes,
                 m0: Bytes, data: Bytes, out0: Bytes, at: nat)
    requires Legal(p) && Midway(aes, p, r, x, inp, out, m0, data, out0, at) && r.state == CalculateSn && !r.done
    requires 0 < r.blockLen && r.inputPos + r.blockLen <= |inp| && r.outputPos + r.blockLen <= |out|
    requires var n := Min(r.blockLen, 16);
             && out' == Patch(out, r.outputPos, XorAt(S(aes, p, r.counter), 0, inp[r.inputPos..r.inputPos + n])[..n])
             && |inp'| == |inp| && inp'[r.inputPos + n..] == inp[r.inputPos + n..]
    ensures var s := if r.operation.EncryptBlock? then NextBlock(r, CalculateXn) else r.(state := CalculateXn);
            Midway(aes, p, s, x, inp', out', m0, data, out0, at)
            && Rank(s) < Rank(r) && SameBuffers(r, s) && s.inputPos - r.inputPos == s.outputPos - r.outputPos
  {
    hide Streaming, XOk, Mac, NextBlock, Ahead, OutCount, Rank, Legal, Ctr, Patch, XorAt, S;
    StreamingFacts(p, r, m0, data);
    AfterSn(aes, p, r, x, m0, data);
    var k, n, c := |data| - r.blockLen, Min(r.blockLen, 16), Ctr(aes, p, |m0|, data);
    Slices(inp, r.inputPos, r.inputPos + r.blockLen, data, k, n);
    CtrBlock(aes, p, m0, data, k, n);
    PatchGrow(out0, at, c, k, n);
    SameTail(inp, inp', r.inputPos + n, r.inputPos + r.blockLen);
  }

  lemma MidwayS0(aes: Cipher, p: Params, r: Regs, x: Bytes, inp: Bytes, out: Bytes,
                 m0: Bytes, data: Bytes, out0: Bytes, at: nat)
    requires Legal(p) && Midway(aes, p, r, x, inp, out, m0, data, out0, at) && r.state == CalculateS0
    ensures var s := r.(state := W4S0, done := true);
            Midway(aes, p, s, Xor(x, S(aes, p, 0)), inp, out, m0, data, out0, at) && Rank(s) < Rank(r)
  {
    hide Streaming, XOk, Ctr, Patch, Rank;
    AfterS0(aes, p, r, x, m0, data);
  }

  lemma MessageStart(aes: Cipher, p: Params, r0: Regs, r: Regs, x: Block, data: Bytes, out0: Bytes, at: nat)
    requires Legal(p) && Between(aes, p, r0, x) && |r0.aad| == p.aadLen && !r.operation.DigestBlock?
    requires 0 < |data| && |r0.msg| + |data| <= p.messageLen && at + |data| <= |out0|
    requires |data| % 16 == 0 || |r0.msg| + |data| == p.messageLen
    requires r == r0.(operation := r.operation, done := false, blockLen := |data|, input := r.input, output := r.output,
                      inputPos := r.inputPos, outputPos := r.outputPos,
                      state := if r0.state == CalculateX1 then CalculateX1 else First(r.operation))
    ensures Streaming(p, r, r0.msg, data) && XOk(aes, p, r, x, r0.msg, data)
    ensures Ahead(r) == 0 && OutCount(r, |data|) == 0
    ensures out0 == Patch(out0, at, Ctr(aes, p, |r0.msg|, data)[..0])
  {
    hide Mac, Ctr, S;
    var m := Plain(aes, p, r.operation, r0.msg, data);
    assert r0.msg + m[..0] == r0.msg;
  }

  lemma MessageEnd(aes: Cipher, p: Params, r: Regs, x: Block, m0: Bytes, data: Bytes)
    requires Legal(p) && Streaming(p, r, m0, data) && XOk(aes, p, r, x, m0, data) && r.done && r.msg == m0
    ensures Between(aes, p, r.(msg := m0 + Plain(aes, p, r.operation, m0, data)), x)
    ensures OutCount(r, |data|) == |data|
    ensures Ctr(aes, p, |m0|, data)[..|data|] == Ctr(aes, p, |m0|, data)
  {
    hide Mac, Ctr, S;
    var m := Plain(aes, p, r.operation, m0, data);
    assert m[..|data|] == m;
  }

  /** The key stream bytes of one block of the call. */
  lemma CtrBlock(aes: Cipher, p: Params, m0: Bytes, data: Bytes, k: nat, n: nat)
    requires Legal(p) && |m0| + |data| <= p.messageLen && k + n <= |data| && n <= 16 && (|m0| + k) % 16 == 0
    ensures XorAt(S(aes, p, 1 + (|m0| + k) / 16), 0, data[k..k + n])[..n] == Ctr(aes, p, |m0|, data)[k..k + n]
  {
    hide S, Ctr, Legal;
    var b := (|m0| + k) / 16;
    var x, y := XorAt(S(aes, p, 1 + b), 0, data[k..k + n])[..n], Ctr(aes, p, |m0|, data)[k..k + n];
    forall j | 0 <= j < n ensures x[j] == y[j] {
      CtrByte(aes, p, |m0|, data, k + j, b, j);
      assert x[j] == S(aes, p, 1 + b)[j] ^ data[k + j];
    }
  }

  lemma MacOfNothing(aes: Cipher, p: Params)
    requires Legal(p)
    ensures Mac(aes, p, [], []) == aes(p.key, B0(p))
  {
    assert Formatted([], []) == [];
  }

  lemma XorNothing(x: Block, d: Bytes)
    requires d == []
    ensures XorAt(x, 0, d) == x
  {
  }

  lemma MacStep(aes: Cipher, p: Params, a: Bytes, m: Bytes, t: Bytes)
    requires Legal(p) && |a| < 0xff00 && |m| % 16 == 0 && 0 < |t| <= 16
    ensures Mac(aes, p, a, m + t) == aes(p.key, XorAt(Mac(aes, p, a, m), 0, t))
  {
    hide Cbc, XorAt, B0;
    PadTail(m, t);
    assert Pad(m) == m;
    assert Formatted(a, m + t) == Formatted(a, m) + Pad(t);
    CbcStep(aes, p.key, aes(p.key, B0(p)), Formatted(a, m), t);
  }

  lemma AfterXn(aes: Cipher, p: Params, r: Regs, x: Block, m0: Bytes, data: Bytes)
    requires Legal(p) && Streaming(p, r, m0, data) && XOk(aes, p, r, x, m0, data) && r.state == CalculateXn && !r.done
    ensures r.operation.EncryptBlock? ==> Ahead(r) == 0
    ensures OutCount(r, |data|) == |data| - r.blockLen + if r.operation.EncryptBlock? then 0 else Min(r.blockLen, 16)
    ensures var k := |data| - r.blockLen;
            var n := Min(r.blockLen, 16);
            var y := aes(p.key, XorAt(x, 0, Plain(aes, p, r.operation, m0, data)[k..k + n]));
            var s := if r.operation.EncryptBlock? then r.(state := CalculateSn) else NextBlock(r, CalculateSn);
            Streaming(p, s, m0, data) && XOk(aes, p, s, y, m0, data) && OutCount(s, |data|) == OutCount(r, |data|)
            && Closer(r, s) && s.inputPos + Ahead(s) == r.inputPos + Ahead(r)
  {
    hide Mac, Ctr, XorAt, Legal, S, A, B0;
    var k := |data| - r.blockLen;
    var n := Min(r.blockLen, 16);
    var m := Plain(aes, p, r.operation, m0, data);
    MacStep(aes, p, r.aad, m0 + m[..k], m[k..k + n]);
    assert m0 + m[..k] + m[k..k + n] == m0 + m[..k + n];
  }

  // ----- Digest calls, on register values

  /** In the middle of a digest call: `d` is what has been absorbed, length bytes first. */
  ghost predicate Digesting(aes: Cipher, p: Params, r: Regs, x: Block, piece: Bytes, d: Bytes)
    requires Legal(p)
  {
    && r.operation == DigestBlock && r.msg == [] && r.counter == 1 && r.messageLen == p.messageLen
    && 0 <= r.blockLen <= |piece| && |r.aad| < p.aadLen && |r.aad| + |piece| <= p.aadLen
    && (r.done ==> r.blockLen == 0)
    && if r.state == CalculateX1 then d == [] && r.aad == [] && r.aadOffset == 0 && r.blockLen == |piece| && !r.done
       else
         && Absorbed(p, r.aad, r.blockLen, piece, d)
         && (r.done ==> d != [])
         && r.aadOffset == |d|
         && if |d| == p.aadLen + 2
            then r.state == W4AadXn && x == Cbc(aes, p.key, aes(p.key, B0(p)), Pad(d)) && r.done
            else r.state == CalculateAadXn && r.aadRemainder == |d| % 16 && x == PartialOf(aes, p, d)
  }

  ghost predicate Absorbed(p: Params, aad: Bytes, left: nat, piece: Bytes, d: Bytes)
    requires left <= |piece|
  {
    if d == [] then aad == [] && left == |piece| else d == Be16(p.aadLen) + aad + piece[..|piece| - left]
  }

  ghost function Left(r: Regs): nat
  {
    if r.done || r.blockLen < 0 then 0 else r.blockLen + (if r.state == CalculateX1 then 2 else 1)
  }

  lemma DigestingFacts(aes: Cipher, p: Params, r: Regs, x: Block, piece: Bytes, d: Bytes)
    requires Legal(p) && Digesting(aes, p, r, x, piece, d) && !r.done
    ensures 0 <= r.blockLen <= |piece|
    ensures if r.state == CalculateX1 then r.messageLen == p.messageLen && r.operation == DigestBlock && d == []
            else
              && r.state == CalculateAadXn && 0 <= r.aadRemainder < 16 && 0 <= r.aadOffset
              && (r.aadOffset == 0 ==> r.aadRemainder == 0)
              && |Head(p.aadLen, r.aadOffset)| + r.aadOffset + r.blockLen <= p.aadLen + 2
  {
    hide Cbc, Pad, XorAt, B0, PartialOf, Be16;
  }

  lemma DigestAfterX1(aes: Cipher, p: Params, r: Regs, x: Block, piece: Bytes)
    requires Legal(p) && Digesting(aes, p, r, x, piece, []) && r.state == CalculateX1
    ensures Digesting(aes, p, r.(state := CalculateAadXn, aadRemainder := 0), aes(p.key, B0(p)), piece, [])
  {
    var x1 := aes(p.key, B0(p));
    assert PartialOf(aes, p, []) == XorAt(x1, 0, []) == x1;
  }

  lemma DigestAfterAad(aes: Cipher, p: Params, r: Regs, x: Block, piece: Bytes, d: Bytes, n: nat, y: Block)
    requires Legal(p) && 0 <= r.blockLen <= |piece| && 0 <= r.aadRemainder < 16
    requires |Head(p.aadLen, r.aadOffset)| + r.aadRemainder <= 16
    requires n == Min(16 - r.aadRemainder - |Head(p.aadLen, r.aadOffset)|, r.blockLen)
    requires var k := |piece| - r.blockLen;
             var z := XorAt(x, r.aadRemainder, Head(p.aadLen, r.aadOffset) + piece[k..k + n]);
             y == if Filled(p.aadLen, r.aadOffset, r.aadRemainder, n) then aes(p.key, z) else z
    requires Digesting(aes, p, r, x, piece, d) && r.state == CalculateAadXn && !r.done
    ensures var k := |piece| - r.blockLen;
            var e := d + (Head(p.aadLen, r.aadOffset) + piece[k..k + n]);
            && Digesting(aes, p, AfterAad(p.aadLen, r, n), y, piece, e)
            && Left(AfterAad(p.aadLen, r, n)) < Left(r)
  {
    hide PartialOf, Cbc, Pad, XorAt, B0, Absorbed, Be16, AfterAad;
    var k := |piece| - r.blockLen;
    var t := Head(p.aadLen, r.aadOffset) + piece[k..k + n];
    PartialStep(aes, p, d, t);
    AbsorbMore(p, r.aad, r.blockLen, piece, d, n);
    AbsorbedCount(p, r.aad, r.blockLen, piece, d);
    AadCounts(p, r, piece, |d|, n);
  }

  lemma AbsorbedCount(p: Params, aad: Bytes, left: nat, piece: Bytes, d: Bytes)
    requires left <= |piece| && Absorbed(p, aad, left, piece, d)
    ensures if d == [] then aad == [] && left == |piece| else |d| == 2 + |aad| + |piece| - left
  {
  }

  /** Where the digest bookkeeping stands after a step, apart from the bytes themselves. */
  lemma AadCounts(p: Params, r: Regs, piece: Bytes, absorbed: nat, n: nat)
    requires r.operation == DigestBlock && r.state == CalculateAadXn && !r.done && 0 <= r.blockLen <= |piece|
    requires r.aadOffset == absorbed < p.aadLen + 2 && r.aadRemainder == absorbed % 16
    requires |r.aad| + |piece| <= p.aadLen
    requires absorbed == 0 || absorbed == 2 + |r.aad| + |piece| - r.blockLen
    requires absorbed == 0 ==> |r.aad| == 0 && r.blockLen == |piece|
    requires n == Min(16 - r.aadRemainder - |Head(p.aadLen, r.aadOffset)|, r.blockLen)
    ensures var f := AfterAad(p.aadLen, r, n);
            var e := absorbed + |Head(p.aadLen, r.aadOffset)| + n;
            && f.aadOffset == e && 0 <= f.blockLen && (f.done ==> f.blockLen == 0) && Left(f) < Left(r)
            && f.aad == r.aad && f.msg == r.msg && f.operation == r.operation && f.counter == r.counter
            && f.messageLen == r.messageLen && f.blockLen == r.blockLen - n
            && if e == p.aadLen + 2 then f.state == W4AadXn && f.done
               else f.state == CalculateAadXn && f.aadRemainder == e % 16
  {
  }

  lemma AbsorbMore(p: Params, aad: Bytes, left: nat, piece: Bytes, d: Bytes, n: nat)
    requires n <= left <= |piece| && Absorbed(p, aad, left, piece, d)
    ensures var e := d + (Head(p.aadLen, |d|) + piece[|piece| - left..|piece| - left + n]);
            Absorbed(p, aad, left - n, piece, e) && |e| == 2 + |aad| + |piece| - (left - n)
  {
    hide Be16;
    var k := |piece| - left;
    Append(Be16(p.aadLen) + aad, piece, k, n);
    if d == [] {
      assert piece[..k] == [] && Be16(p.aadLen) + [] == Be16(p.aadLen);
    }
  }

  lemma Append(a: Bytes, piece: Bytes, k: nat, n: nat)
    requires k + n <= |piece|
    ensures a + piece[..k] + piece[k..k + n] == a + piece[..k + n]
    ensures [] + piece[k..k + n] == piece[k..k + n]
  {
  }

  lemma DigestStart(aes: Cipher, p: Params, r0: Regs, r: Regs, x: Block, piece: Bytes)
    requires Legal(p) && Between(aes, p, r0, x)
    requires r == r0.(operation := DigestBlock, blockLen := |piece|, input := r.input, inputPos := r.inputPos,
                      done := false)
    requires r.msg == [] && |r.aad| < p.aadLen && |r.aad| + |piece| <= p.aadLen
    ensures Digesting(aes, p, r, x, piece, if r.aadOffset == 0 then [] else Be16(p.aadLen) + r.aad)
  {
    assert Be16(p.aadLen) + r.aad + piece[..0] == Be16(p.aadLen) + r.aad;
  }

  lemma DigestEnd(aes: Cipher, p: Params, r: Regs, x: Block, piece: Bytes, d: Bytes)
    requires Legal(p) && Digesting(aes, p, r, x, piece, d) && r.done
    ensures Between(aes, p, r.(aad := r.aad + piece), x)
  {
    hide Cbc, B0, PartialOf, Pad, Mac, S, Be16;
    assert piece[..|piece|] == piece;
    assert d == Be16(p.aadLen) + (r.aad + piece);
    if |d| == p.aadLen + 2 {
      MacOfAad(aes, p, r.aad + piece);
    }
  }

  lemma MacOfAad(aes: Cipher, p: Params, a: Bytes)
    requires Legal(p) && 0 < |a| < 0xff00
    ensures Mac(aes, p, a, []) == Cbc(aes, p.key, aes(p.key, B0(p)), Pad(Be16(|a|) + a))
  {
    hide Cbc, B0, Be16;
    assert Formatted(a, []) == Pad(Be16(|a|) + a);
  }

  // ----- What the registers hold between two API calls

  ghost predicate Between(aes: Cipher, p: Params, r: Regs, x: Block)
    requires Legal(p)
  {
    && |r.aad| <= p.aadLen && |r.msg| <= p.messageLen && r.messageLen == p.messageLen - |r.msg|
    && (r.msg != [] ==> |r.aad| == p.aadLen)
    && if r.msg == [] then r.counter == 1 && BeforeMessage(aes, p, r, x)
       else if |r.msg| < p.messageLen then
         r.state != CalculateX1 && |r.msg| % 16 == 0 && r.counter == 1 + |r.msg| / 16 && x == Mac(aes, p, r.aad, r.msg)
       else x == Xor(Mac(aes, p, r.aad, r.msg), S(aes, p, 0))
  }

  ghost predicate BeforeMessage(aes: Cipher, p: Params, r: Regs, x: Block)
    requires Legal(p) && |r.aad| <= p.aadLen
  {
    if r.state == CalculateX1 then r.aad == [] && r.aadOffset == 0
    else
      && p.aadLen > 0 && r.aadOffset == |r.aad| + 2
      && if |r.aad| == p.aadLen then r.state == W4AadXn && x == Mac(aes, p, r.aad, [])
         else r.state == CalculateAadXn && r.aadRemainder == r.aadOffset % 16
              && x == PartialOf(aes, p, Be16(p.aadLen) + r.aad)
  }

  /** The register after absorbing d: whole blocks chained, the rest xored in but not yet encrypted. */
  ghost function PartialOf(aes: Cipher, p: Params, d: Bytes): Block
    requires Legal(p)
  {
    var full := |d| - |d| % 16;
    XorAt(Cbc(aes, p.key, aes(p.key, B0(p)), d[..full]), 0, d[full..])
  }

  lemma PartialIs(aes: Cipher, p: Params, full: Bytes, rest: Bytes)
    requires Legal(p) && |full| % 16 == 0 && |rest| < 16
    ensures PartialOf(aes, p, full + rest) == XorAt(Cbc(aes, p.key, aes(p.key, B0(p)), full), 0, rest)
  {
    hide Cbc, XorAt, B0, Legal;
    WholeAndRest(full, rest, full + rest);
  }

  lemma WholeAndRest(full: Bytes, rest: Bytes, d: Bytes)
    requires d == full + rest && |full| % 16 == 0 && |rest| < 16
    ensures |d| - |d| % 16 == |full| && d[..|full|] == full && d[|full|..] == rest
  {
  }

  /** What xoring `t` into the current block and, if need be, encrypting it amounts to. */
  lemma PartialStep(aes: Cipher, p: Params, d: Bytes, t: Bytes)
    requires Legal(p) && |d| % 16 + |t| <= 16
    ensures var y := XorAt(PartialOf(aes, p, d), |d| % 16, t);
            && (|d| % 16 + |t| < 16 ==> PartialOf(aes, p, d + t) == y)
            && (|d| % 16 + |t| == 16 ==> PartialOf(aes, p, d + t) == aes(p.key, y))
            && (|d| % 16 + |t| > 0 ==> Cbc(aes, p.key, aes(p.key, B0(p)), Pad(d + t)) == aes(p.key, y))
  {
    hide Cbc, XorAt, B0, PartialOf, Legal;
    var r := |d| % 16;
    var full, rest := d[..|d| - r], d[|d| - r..];
    var x1 := aes(p.key, B0(p));
    assert d == full + rest;
    Assoc(full, rest, t);
    PartialIs(aes, p, full, rest);
    XorAtAppend(Cbc(aes, p.key, x1, full), 0, rest, t);
    if r + |t| < 16 {
      PartialIs(aes, p, full, rest + t);
    }
    if r + |t| > 0 {
      PadTail(full, rest + t);
      CbcStep(aes, p.key, x1, full, rest + t);
    }
    if r + |t| == 16 {
      WholePartial(aes, p, d + t);
    }
  }

  lemma WholePartial(aes: Cipher, p: Params, d: Bytes)
    requires Legal(p) && |d| % 16 == 0
    ensures Pad(d) == d && PartialOf(aes, p, d) == Cbc(aes, p.key, aes(p.key, B0(p)), d)
  {
    NothingBehind(d);
    PartialIs(aes, p, d, []);
    XorNothing(Cbc(aes, p.key, aes(p.key, B0(p)), d), []);
  }
}
