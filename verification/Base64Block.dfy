/** Whole encodings: the block encoder, and a stream fed in arbitrary pieces. */
module Base64Block {
  import opened Sequences
  import opened Base64Encoder

  lemma EncodedLength(m: Bytes)
    ensures |Encode(m)| == Count(|m|) + |Closing(m)|
    ensures |m| / 3 * 4 <= Count(|m|)
    ensures Emitted([]) == []
  {
    hide Encode, Emitted, Closing;
    Thirds(|m|);
  }

  lemma Thirds(n: nat)
    ensures (n + 2) / 3 * 4 == n / 3 * 4 + n % 3 + if n % 3 == 0 then 0 else 4 - n % 3
  {
  }

  /** Encodes src and a terminating null byte; fails on empty input or when outLen is too small.
      The room check of the stream only counts whole triples, hence the second precondition. */
  method ProcessBlock(src: Bytes, out: array<bv8>, outLen: nat) returns (ok: bool, newLen: nat)
    requires outLen <= out.Length
    requires |src| / 3 * 4 <= outLen ==> Count(|src|) <= out.Length
    modifies out
    ensures ok <==> |src| > 0 && |Encode(src)| < outLen
    ensures newLen == if ok then |Encode(src)| else outLen
    ensures ok ==> Written(old(out[..]), out[..], 0, Encode(src) + [0])
  {
    hide Encode, Emitted, Closing, Count, Written;
    newLen := outLen;
    EncodedLength(src);
    EmittedThenClosing(src);
    var st := new Stream.Init();
    ghost var base := out[..];
    var ret, olen := st.Encode(src, out, 0, outLen);
    ok := ret > 0 && olen <= outLen;
    if |src| == 0 || |src| / 3 * 4 > outLen {
      return;
    }
    assert [] + src == src && Emitted(src)[0..] == Emitted(src);
    assert ret == Count(|src|);
    PositiveCount(|src|);
    if ok {
      var sum := olen;
      var blockLen := outLen - olen;
      ghost var middle := out[..];
      var olen2;
      ret, olen2 := st.Final(out, olen, blockLen);
      ok := ret >= 0 && olen2 < blockLen;
      if ok {
        newLen := sum + olen2;
        WrittenMore(base, middle, out[..], 0, Emitted(src), Closing(src) + [0]);
        assert Emitted(src) + (Closing(src) + [0]) == Encode(src) + [0];
      }
    }
  }

  lemma PositiveCount(n: nat)
    ensures n > 0 ==> Count(n) > 0
  {
  }

  lemma RoomFor(n: nat, k: nat)
    ensures Count(n) <= Count(n + k) <= Count(n) + 2 * k && k / 3 * 4 <= 2 * k
  {
  }

  /** However the input is cut into stream calls, the texts of the calls and of the final call
      together are the encoding of the whole input. */
  method EncodePieces(pieces: seq<Bytes>) returns (text: Bytes)
    ensures text == Encode(Flat(pieces))
  {
    hide Encode, Emitted, Closing, Count, Written;
    var st := new Stream.Init();
    text := [];
    EncodedLength([]);
    for i := 0 to |pieces|
      invariant fresh(st) && st.Valid() && st.fed == Flat(pieces[..i]) && text == Emitted(st.fed)
    {
      var piece := pieces[i];
      var out := new bv8[2 * |piece|];
      RoomFor(|st.fed|, |piece|);
      ghost var fed0, base := st.fed, out[..];
      var ret, n := st.Encode(piece, out, 0, 2 * |piece|);
      assert pieces[..i + 1][..i] == pieces[..i];
      if |piece| > 0 {
        WrittenRead(base, out[..], 0, Emitted(st.fed)[|Emitted(fed0)|..]);
        text := text + out[..n];
      } else {
        assert fed0 + piece == fed0;
      }
    }
    assert pieces[..|pieces|] == pieces;
    var out := new bv8[4];
    ghost var base := out[..];
    var ret, n := st.Final(out, 0, 4);
    WrittenRead(base, out[..], 0, Closing(st.fed) + [0]);
    assert out[..n] == Closing(st.fed);
    EmittedThenClosing(st.fed);
    text := text + out[..n];
  }

  lemma WrittenRead(s: Bytes, t: Bytes, at: nat, d: Bytes)
    requires Written(s, t, at, d)
    ensures at + |d| <= |t| && t[at..at + |d|] == d
    ensures forall n :: 0 <= n <= |d| ==> t[at..at + n] == d[..n]
  {
    forall n | 0 <= n <= |d| ensures t[at..at + n] == d[..n] {
      SliceOfSlice(t, at, at + |d|, 0, n);
    }
  }
}
