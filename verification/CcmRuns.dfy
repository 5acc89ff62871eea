/** Whole CCM sessions: any way of cutting the authenticated data and the message into calls
    computes what RFC 3610 defines on the uncut data. */
module CcmRuns {
  import opened Sequences
  import opened Blocks
  import opened Rfc3610
  import opened Ccm

  /** Digest calls carry data; together they carry all of it. */
  predicate AadCut(p: Params, pieces: seq<Bytes>) {
    |Flat(pieces)| == p.aadLen && forall i :: 0 <= i < |pieces| ==> pieces[i] != []
  }

  /** Message calls carry data, whole blocks except in the last one. */
  predicate MessageCut(p: Params, pieces: seq<Bytes>) {
    && |Flat(pieces)| == p.messageLen
    && (forall i :: 0 <= i < |pieces| ==> pieces[i] != [])
    && forall i :: 0 <= i < |pieces| - 1 ==> |pieces[i]| % 16 == 0
  }

  /** The call at position i fits the request's rules. */
  lemma CutFits(p: Params, pieces: seq<Bytes>, i: nat)
    requires i < |pieces| && MessageCut(p, pieces)
    ensures |Flat(pieces[..i])| + |pieces[i]| <= p.messageLen
    ensures |pieces[i]| % 16 == 0 || |Flat(pieces[..i])| + |pieces[i]| == p.messageLen
  {
    FlatPrefix(pieces, i);
    assert pieces[..|pieces|] == pieces;
  }

  method Start(aes: Cipher, p: Params, pieces: seq<Bytes>) returns (r: CcmRequest)
    requires Legal(p) && AadCut(p, pieces)
    ensures fresh(r) && fresh(r.x) && r.Valid() && r.P() == p && r.aes == aes
    ensures r.aad == Flat(pieces) && r.msg == []
  {
    hide Between;
    r := new CcmRequest.Init(aes, p.key, p.nonce, p.messageLen, p.aadLen, p.authLen);
    for i := 0 to |pieces|
      invariant fresh(r) && fresh(r.x) && r.Valid() && r.P() == p && r.aes == aes
      invariant r.aad == Flat(pieces[..i]) && r.msg == []
    {
      var piece := pieces[i];
      var data := new bv8[|piece|](j requires 0 <= j < |piece| => piece[j]);
      FlatPrefix(pieces, i);
      assert data[0..0 + |piece|] == piece;
      r.Digest(data, 0, |piece|);
    }
    assert pieces[..|pieces|] == pieces;
  }

  /** Sealing in any legal sequence of calls yields the ciphertext and the tag of the RFC. */
  method Encrypt(aes: Cipher, p: Params, aad: seq<Bytes>, msg: seq<Bytes>) returns (c: Bytes, t: Bytes)
    requires Legal(p) && AadCut(p, aad) && MessageCut(p, msg) && p.messageLen > 0
    ensures (c, t) == Seal(aes, p, Flat(aad), Flat(msg))
  {
    hide Between, Ctr, Mac, Flat;
    var r := Start(aes, p, aad);
    c := [];
    assert msg[..0] == [];
    FlatNil(aes, p);
    for i := 0 to |msg|
      invariant fresh(r) && fresh(r.x) && r.Valid() && r.P() == p && r.aes == aes
      invariant r.aad == Flat(aad) && r.msg == Flat(msg[..i]) && |r.msg| <= p.messageLen
      invariant c == Ctr(aes, p, 0, Flat(msg[..i]))
    {
      var piece := msg[i];
      var data := new bv8[|piece|](j requires 0 <= j < |piece| => piece[j]);
      var out := new bv8[|piece|];
      FlatPrefix(msg, i);
      CutFits(p, msg, i);
      CtrAppend(aes, p, 0, r.msg, piece);
      assert data[0..0 + |piece|] == piece;
      r.EncryptBlock(|piece|, data, 0, out, 0);
      c := c + out[..];
    }
    assert msg[..|msg|] == msg;
    TagInRegister(aes, p, r);
    t := r.GetAuthenticationValue();
  }

  lemma FlatNil(aes: Cipher, p: Params)
    requires Legal(p)
    ensures Flat<Byte>([]) == [] && Ctr(aes, p, 0, []) == []
  {
  }

  lemma TagInRegister(aes: Cipher, p: Params, r: CcmRequest)
    requires r.Valid() && r.P() == p && r.aes == aes && |r.msg| == p.messageLen > 0
    ensures |r.aad| == p.aadLen
    ensures r.x[..] == Xor(Mac(aes, p, r.aad, r.msg), S(aes, p, 0))
  {
  }

  /** Opening, again in any legal sequence of calls, yields the one message whose sealed form has
      this ciphertext, together with the tag that sealed form carries. */
  method Decrypt(aes: Cipher, p: Params, aad: seq<Bytes>, cipher: seq<Bytes>) returns (m: Bytes, t: Bytes)
    requires Legal(p) && AadCut(p, aad) && MessageCut(p, cipher) && p.messageLen > 0
    ensures |m| == p.messageLen && Seal(aes, p, Flat(aad), m) == (Flat(cipher), t)
  {
    hide Between, Ctr, Mac, Flat;
    var r := Start(aes, p, aad);
    m := [];
    assert cipher[..0] == [];
    FlatNil(aes, p);
    for i := 0 to |cipher|
      invariant fresh(r) && fresh(r.x) && r.Valid() && r.P() == p && r.aes == aes
      invariant |Flat(cipher[..i])| <= p.messageLen
      invariant r.aad == Flat(aad) && r.msg == m == Ctr(aes, p, 0, Flat(cipher[..i]))
    {
      var piece := cipher[i];
      var data := new bv8[|piece|](j requires 0 <= j < |piece| => piece[j]);
      var out := new bv8[|piece|];
      FlatPrefix(cipher, i);
      CutFits(p, cipher, i);
      CtrAppend(aes, p, 0, Flat(cipher[..i]), piece);
      assert data[0..0 + |piece|] == piece;
      r.DecryptBlock(|piece|, data, 0, out, 0);
      m := m + out[..];
    }
    assert cipher[..|cipher|] == cipher;
    CtrInvolution(aes, p, 0, Flat(cipher));
    TagInRegister(aes, p, r);
    t := r.GetAuthenticationValue();
  }

  /** Decrypting what encryption produced recovers the message and the tag, however either side
      was cut into calls: the message of `Decrypt`'s contract is unique. */
  lemma OpenInvertsSeal(aes: Cipher, p: Params, a: Bytes, m: Bytes, n: Bytes, t: Bytes)
    requires Legal(p) && |a| == p.aadLen && |m| == p.messageLen && |n| == p.messageLen
    ensures Seal(aes, p, a, n) == (Seal(aes, p, a, m).0, t) ==> n == m && t == Seal(aes, p, a, m).1
  {
    CtrInvolution(aes, p, 0, m);
    CtrInvolution(aes, p, 0, n);
  }

  // ----- The empty message, which the request gets wrong

  function EmptyTag(aes: Cipher, p: Params, a: Bytes): Bytes
    requires Legal(p) && |a| == p.aadLen
  {
    Xor(aes(p.key, Mac(aes, p, a, [])), S(aes, p, 0))[..p.authLen]
  }

  /** What a request for an empty message yields, when it is used the only way there is to get a tag out of it:
      an encrypt or decrypt call without data. */
  method RunEmpty(aes: Cipher, p: Params, aad: seq<Bytes>, op: Operation) returns (t: Bytes)
    requires Legal(p) && AadCut(p, aad) && p.messageLen == 0 && !op.DigestBlock?
    ensures |Flat(aad)| == p.aadLen && t == EmptyTag(aes, p, Flat(aad))
  {
    hide Between, Mac, S, Flat;
    var r := Start(aes, p, aad);
    var buffer := new bv8[0];
    r.ProcessNothing(op, buffer);
    t := r.GetAuthenticationValue();
  }

  /** With an empty message the tag is right exactly when encrypting the chaining value once too
      often happens to leave the transmitted bytes alone. */
  lemma EmptyTagIff(aes: Cipher, p: Params, a: Bytes)
    requires Legal(p) && |a| == p.aadLen && p.messageLen == 0
    ensures var x := Mac(aes, p, a, []);
            EmptyTag(aes, p, a) == Seal(aes, p, a, []).1 <==> aes(p.key, x)[..p.authLen] == x[..p.authLen]
  {
    hide Mac, S;
    var x, s, m := Mac(aes, p, a, []), S(aes, p, 0), p.authLen;
    var y := aes(p.key, x);
    forall i | 0 <= i < m ensures Xor(y, s)[i] == Xor(x, s)[i] <==> y[i] == x[i] {
      assert (y[i] ^ s[i]) ^ s[i] == y[i] && (x[i] ^ s[i]) ^ s[i] == x[i];
    }
    if Xor(y, s)[..m] == Xor(x, s)[..m] {
      forall i | 0 <= i < m ensures y[i] == x[i] {
        assert Xor(y, s)[..m][i] == Xor(x, s)[..m][i];
      }
    }
    if y[..m] == x[..m] {
      forall i | 0 <= i < m ensures Xor(y, s)[i] == Xor(x, s)[i] {
        assert y[..m][i] == x[..m][i];
      }
    }
  }

  function Flip(key: Block, b: Block): Block {
    seq(16, i requires 0 <= i < 16 => b[i] ^ 0xff)
  }

  /** So no property of the chaining makes it right: a cipher that changes every byte refutes it. */
  lemma EmptyTagWrong(p: Params, a: Bytes)
    requires Legal(p) && |a| == p.aadLen && p.messageLen == 0
    ensures EmptyTag(Flip, p, a) != Seal(Flip, p, a, []).1
  {
    EmptyTagIff(Flip, p, a);
    var x := Mac(Flip, p, a, []);
    assert Flip(p.key, x)[..p.authLen][0] == x[0] ^ 0xff != x[..p.authLen][0];
  }
}
