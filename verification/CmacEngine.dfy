/** The event-driven AES-CMAC: a state machine that hands one block at a time to the controller's
    LE Encrypt command, whose parameters and result travel in reversed byte order. */
module CmacEngine {
  import opened Widths
  import opened Blocks
  import opened BitStrings
  import opened Rfc4493
  import opened CmacOneShot

  datatype State = Idle | CalcSubkeys | W4Subkeys | CalcMi | W4Mi | CalcMlast | W4Mlast

  function Reversed(b: Block): (r: Block)
    ensures forall i :: 0 <= i < 16 ==> r[i] == b[15 - i]
  {
    seq(16, i requires 0 <= i < 16 => b[15 - i])
  }

  lemma ReversedTwice(b: Block)
    ensures Reversed(Reversed(b)) == b
  {
  }

  /** What the controller answers to LE Encrypt. */
  function LeEncrypt(aes: Cipher, key: Block, plaintext: Block): Block {
    Reversed(aes(Reversed(key), Reversed(plaintext)))
  }

  /** The engine counts blocks in a byte, and treats a count of zero as one. */
  function CountedBlocks(size: uint16): (n: nat)
    ensures 1 <= n < 256
  {
    var n := (size + 15) / 16 % 256;
    if n == 0 then 1 else n
  }

  lemma CountedAtMost(size: uint16)
    ensures CountedBlocks(size) <= BlockCount(size)
    ensures CountedBlocks(size) == BlockCount(size) <==> size <= 4080
  {
  }

  /** The count is that of the blocks less full turns of the byte. */
  lemma CountedBlocksAre(size: uint16, turns: nat, n: uint8)
    requires 16 * (256 * turns + n) - 16 < size <= 16 * (256 * turns + n)
    ensures CountedBlocks(size) == if n == 0 then 1 else n
  {
    assert (size + 15) / 16 == 256 * turns + n;
  }

  class Engine {
    var state: State
    var k: Block
    var x: Block
    var subkey: Block
    var blockCurrent: uint8
    var blockCount: uint8
    var keySent: Block
    var plaintextSent: Block

    constructor ()
      ensures state == Idle
    {
      state, k, x, subkey := Idle, Zeros(16), Zeros(16), Zeros(16);
      blockCurrent, blockCount, keySent, plaintextSent := 0, 0, Zeros(16), Zeros(16);
    }

    /** Where the engine stands with request r. */
    ghost predicate Working(aes: Cipher, r: Request)
      reads this
    {
      var n := blockCurrent;
      && r.Valid() && k == r.key && blockCount == CountedBlocks(r.size)
      && (state.W4Mlast? || state.CalcMlast? || state.W4Mi? || state.CalcMi? || state.W4Subkeys?)
      && (!state.W4Subkeys? ==> subkey == aes(k, Zeros(16)))
      && match state
         case W4Subkeys => n == 0 && x == Zeros(16) && Sent(k, Zeros(16))
         case CalcMi => n < blockCount - 1 && x == Sofar(aes, r, n)
         case W4Mi => 1 <= n <= blockCount - 1 && Received(aes) == Sofar(aes, r, n)
         case CalcMlast => n == blockCount - 1 && x == Sofar(aes, r, n)
         case W4Mlast => Received(aes) == Chained(aes, k, r.Text(), blockCount)
    }

    /** The chaining value over the first n blocks. */
    ghost function Sofar(aes: Cipher, r: Request, n: nat): Block
      requires r.Valid()
      reads this
    {
      if 16 * n <= r.size then Cbc(aes, k, Zeros(16), r.Text()[..16 * n]) else Zeros(16)
    }

    ghost predicate Sent(key: Block, plaintext: Block)
      reads this
    {
      keySent == Reversed(key) && plaintextSent == Reversed(plaintext)
    }

    /** The controller's answer, turned back into the byte order of the stack. */
    ghost function Received(aes: Cipher): Block
      reads this
    {
      Reversed(LeEncrypt(aes, keySent, plaintextSent))
    }

    lemma ReceivedIs(aes: Cipher, key: Block, plaintext: Block)
      requires Sent(key, plaintext)
      ensures Received(aes) == aes(key, plaintext)
    {
      ReversedTwice(key);
      ReversedTwice(plaintext);
      ReversedTwice(aes(key, plaintext));
    }

    method Aes128Start(key: Block, plaintext: Block)
      modifies this`keySent, this`plaintextSent
      ensures Sent(key, plaintext)
      ensures forall i :: 0 <= i < 16 ==> keySent[i] == key[15 - i] && plaintextSent[i] == plaintext[15 - i]
    {
      keySent, plaintextSent := Reversed(key), Reversed(plaintext);
    }

    method Start(ghost aes: Cipher, r: Request)
      requires r.Valid() && state == Idle
      modifies this
      ensures Working(aes, r) && state.W4Subkeys?
    {
      k, x, blockCurrent := r.key, Zeros(16), 0;
      blockCount := (r.size + 15) / 16 % 256;
      if blockCount == 0 {
        blockCount := 1;
      }
      state := W4Subkeys;
      Aes128Start(k, Zeros(16));
    }

    method SendMi(ghost aes: Cipher, r: Request)
      requires Working(aes, r) && state.CalcMi?
      modifies this
      ensures Working(aes, r) && state.W4Mi? && blockCurrent == old(blockCurrent) + 1
    {
      hide Xor, Reversed, Cbc;
      CountedAtMost(r.size);
      NextBlock(aes, k, Zeros(16), r.Text(), blockCurrent);
      var y := XorBlock(r, blockCurrent * 16, x);
      blockCurrent := blockCurrent + 1;
      state := W4Mi;
      Aes128Start(k, y);
      ReceivedIs(aes, k, y);
    }

    method MaskLast(ghost aes: Cipher, r: Request) returns (last: Block)
      requires r.Valid() && subkey == aes(k, Zeros(16))
      ensures last == LastBlock(aes, k, r.Text())
    {
      hide Subkey, MaskedLast;
      var k1 := CalcSubkey(subkey);
      var k2 := CalcSubkey(k1);
      last := CalcLastBlock(r, k1, k2);
    }

    method SendMlast(ghost aes: Cipher, r: Request)
      requires Working(aes, r) && state.CalcMlast?
      modifies this
      ensures Working(aes, r) && state.W4Mlast? && blockCurrent == old(blockCurrent) + 1
    {
      hide Xor, Reversed, Cbc, LastBlock;
      CountedAtMost(r.size);
      var last := MaskLast(aes, r);
      var y := Xor(x, last);
      blockCurrent := blockCurrent + 1;
      state := W4Mlast;
      Aes128Start(k, y);
      ReceivedIs(aes, k, y);
    }

    /** The scheduler found the controller free. */
    method HandleEngineReady(ghost aes: Cipher, r: Request)
      requires Working(aes, r) && (state.CalcMi? || state.CalcMlast?)
      modifies this
      ensures Working(aes, r) && state == if old(state).CalcMi? then W4Mi else W4Mlast
      ensures blockCurrent == old(blockCurrent) + 1
    {
      if state == CalcMi {
        SendMi(aes, r);
      } else {
        SendMlast(aes, r);
      }
    }

    /** The controller answered; at the end the hash is handed over and the engine is idle again. */
    method HandleEncryptionResult(ghost aes: Cipher, r: Request, data: Block) returns (hash: Block)
      requires Working(aes, r) && data == Received(aes) && (state.W4Subkeys? || state.W4Mi? || state.W4Mlast?)
      modifies this
      ensures if old(state).W4Mlast? then state == Idle && hash == EngineHash(aes, r)
              else Working(aes, r) && (state.CalcMi? || state.CalcMlast?) && blockCurrent == old(blockCurrent)
    {
      hash := Zeros(16);
      if state == W4Subkeys {
        ReceivedIs(aes, k, Zeros(16));
        assert r.Text()[..0] == [];
        subkey := data;
        state := if blockCurrent < blockCount - 1 then CalcMi else CalcMlast;
      } else if state == W4Mi {
        x := data;
        state := if blockCurrent < blockCount - 1 then CalcMi else CalcMlast;
      } else {
        state := Idle;
        hash := data;
      }
    }

    /** One request from start to idle, with the controller answering every command. */
    method Complete(aes: Cipher, r: Request) returns (hash: Block)
      requires r.Valid() && state == Idle
      modifies this
      ensures state == Idle && hash == EngineHash(aes, r)
      ensures r.size <= 4080 ==> IsMac(aes, r.key, r.Text(), hash)
    {
      hide Chained, Cbc, Reversed, IsMac, LastBlock;
      CountedAtMost(r.size);
      CmacIsMac(aes, r.key, r.Text(), EngineHash(aes, r));
      Start(aes, r);
      hash := HandleEncryptionResult(aes, r, Reversed(LeEncrypt(aes, keySent, plaintextSent)));
      while state != Idle
        invariant state != Idle ==> Working(aes, r) && (state.CalcMi? || state.CalcMlast?)
        invariant state == Idle ==> hash == EngineHash(aes, r)
        decreases state != Idle, 256 - blockCurrent
      {
        HandleEngineReady(aes, r);
        hash := HandleEncryptionResult(aes, r, Reversed(LeEncrypt(aes, keySent, plaintextSent)));
      }
    }
  }

  /** What the engine computes: the chaining stops after the counted blocks. */
  function EngineHash(aes: Cipher, r: Request): Block
    requires r.Valid()
  {
    CountedAtMost(r.size);
    Chained(aes, r.key, r.Text(), CountedBlocks(r.size))
  }

  // ----- Up to 255 blocks the two forms agree, and no further

  /** A cipher for which a skipped block shows: the identity. */
  function Identity(key: Block, b: Block): Block { b }

  /** Zero bytes with a single one at position p. */
  function Marked(size: nat, p: nat): (m: Bytes)
    ensures |m| == size
  {
    seq(size, i => if i == p then 1 else 0)
  }

  lemma {:induction false} MarkedChain(key: Block, x: Block, d: Bytes, p: nat)
    requires |d| % 16 == 0 && p % 16 == 0
    requires forall i :: 0 <= i < |d| ==> d[i] == if i == p then 1 else 0
    ensures Cbc(Identity, key, x, d)[0] == if p < |d| then x[0] ^ 1 else x[0]
    decreases |d|
  {
    if d != [] {
      var y := Xor(x, d[..16]);
      var rest := d[16..];
      assert y[0] == x[0] ^ d[0] && x[0] ^ 0 == x[0];
      if p == 0 {
        UnmarkedChain(key, y, rest);
      } else {
        assert 16 <= p;
        MarkedChain(key, y, rest, p - 16);
      }
    }
  }

  lemma {:induction false} UnmarkedChain(key: Block, x: Block, d: Bytes)
    requires |d| % 16 == 0 && forall i :: 0 <= i < |d| ==> d[i] == 0
    ensures Cbc(Identity, key, x, d)[0] == x[0]
    decreases |d|
  {
    if d != [] {
      var y := Xor(x, d[..16]);
      assert y[0] == x[0] ^ 0 == x[0];
      UnmarkedChain(key, y, d[16..]);
    }
  }

  /** A message the counter is too narrow for: the first block it skips carries the mark. */
  lemma WrapLosesBlocks(key: Block, size: uint16)
    requires size > 4080
    ensures var r := Request(key, size, Message(Marked(size, 16 * (CountedBlocks(size) - 1))));
            EngineHash(Identity, r) != Cmac(Identity, key, r.Text())
  {
    hide Cbc, LastBlock;
    CountedAtMost(size);
    var c, n := CountedBlocks(size), BlockCount(size);
    var p := 16 * (c - 1);
    var m := Marked(size, p);
    var r := Request(key, size, Message(m));
    assert r.Text() == m;
    var short, long := m[..16 * (c - 1)], m[..16 * (n - 1)];
    MarkedChain(key, Zeros(16), short, p);
    MarkedChain(key, Zeros(16), long, p);
    FirstBytes(Cbc(Identity, key, Zeros(16), short), Cbc(Identity, key, Zeros(16), long), LastBlock(Identity, key, m));
  }

  lemma FirstBytes(a: Block, b: Block, last: Block)
    requires a[0] == 0 && b[0] == 0 ^ 1
    ensures Xor(a, last) != Xor(b, last)
  {
    assert Xor(a, last)[0] == 0 ^ last[0] && Xor(b, last)[0] == (0 ^ 1) ^ last[0];
    assert 0 ^ last[0] != (0 ^ 1) ^ last[0];
  }

  /** The event-driven form computes the MAC of the RFC for every cipher, key and message of a
      given size exactly when that size is at most 255 blocks. */
  lemma EngineIsCmacIff(size: uint16)
    ensures (forall aes: Cipher, r: Request :: r.Valid() && r.size == size ==>
              EngineHash(aes, r) == Cmac(aes, r.key, r.Text()))
            <==> size <= 4080
  {
    hide Chained, CountedBlocks, BlockCount;
    CountedAtMost(size);
    if size > 4080 {
      WrapLosesBlocks(Zeros(16), size);
    }
  }
}
