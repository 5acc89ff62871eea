/** The resumable base64 encoder: whole triples in an unrolled loop, single bytes around it, and a
    carry of two or four bits between calls. */
module Base64Encoder {
  import opened Sequences
  import opened Base64Bits

  type Bytes = seq<bv8>

  // ----- RFC 4648 section 4

  function Quad(a: bv8, b: bv8, c: bv8): (q: Bytes)
    ensures |q| == 4
  {
    [Char(First(a)), Char(Second(a, b)), Char(Third(b, c)), Char(Fourth(c))]
  }

  function Encode(m: Bytes): (r: Bytes)
    ensures |r| == (|m| + 2) / 3 * 4
    decreases |m|
  {
    if |m| == 0 then []
    else if |m| == 1 then [Char(First(m[0])), Char(Second(m[0], 0)), PAD, PAD]
    else if |m| == 2 then [Char(First(m[0])), Char(Second(m[0], m[1])), Char(Third(m[1], 0)), PAD]
    else Quad(m[0], m[1], m[2]) + Encode(m[3..])
  }

  /** The test vectors of section 10, and one for the last two characters of the alphabet. */
  lemma Vectors()
    ensures Encode([]) == [] && Encode([102]) == [90, 103, 61, 61] && Encode([102, 111]) == [90, 109, 56, 61]
    ensures Encode([102, 111, 111]) == [90, 109, 57, 118]
    ensures Encode([102, 111, 111, 98, 97, 114]) == [90, 109, 57, 118, 89, 109, 70, 121]
    ensures Encode([0xfb, 0xff, 0xbf]) == [43, 47, 43, 47]
  {
    VectorBits();
    var foo: Bytes, bar: Bytes := [102, 111, 111], [98, 97, 114];
    hide Char, First, Second, Third, Fourth;
    OneQuad(102, 111, 111, []);
    OneQuad(98, 97, 114, []);
    OneQuad(102, 111, 111, bar);
    OneQuad(0xfb, 0xff, 0xbf, []);
    assert foo + bar == [102, 111, 111, 98, 97, 114];
  }

  lemma OneQuad(a: bv8, b: bv8, c: bv8, m: Bytes)
    ensures Encode([a, b, c] + m) == Quad(a, b, c) + Encode(m)
    ensures [a, b, c] + [] == [a, b, c] && Quad(a, b, c) + [] == Quad(a, b, c) && Encode([]) == []
  {
    hide Quad;
    assert ([a, b, c] + m)[3..] == m;
  }

  lemma VectorBits()
    ensures Char(First(102)) == 90 && Char(Second(102, 0)) == 103 && Char(Second(102, 111)) == 109
    ensures Char(Third(111, 0)) == 56 && Char(Third(111, 111)) == 57 && Char(Fourth(111)) == 118
    ensures Quad(98, 97, 114) == [89, 109, 70, 121] && Quad(0xfb, 0xff, 0xbf) == [43, 47, 43, 47]
  {
  }

  // ----- What the encoder has emitted and what it still holds after any prefix

  /** How many characters have been emitted after n bytes. */
  function Count(n: nat): nat { n / 3 * 4 + n % 3 }

  function Emitted(m: Bytes): (r: Bytes)
    ensures |r| == Count(|m|)
    decreases |m|
  {
    if |m| == 0 then []
    else if |m| == 1 then [Char(First(m[0]))]
    else if |m| == 2 then [Char(First(m[0])), Char(Second(m[0], m[1]))]
    else Quad(m[0], m[1], m[2]) + Emitted(m[3..])
  }

  function Carry(m: Bytes): bv8 {
    if |m| % 3 == 1 then CarryOne(m[|m| - 1]) else if |m| % 3 == 2 then CarryTwo(m[|m| - 1]) else 0
  }

  function Closing(m: Bytes): (r: Bytes)
    ensures |r| == if |m| % 3 == 0 then 0 else 4 - |m| % 3
    ensures r != [] ==> forall i :: 1 <= i < |r| ==> r[i] == 61
  {
    if |m| % 3 == 1 then [Char(Carry(m)), PAD, PAD] else if |m| % 3 == 2 then [Char(Carry(m)), PAD] else []
  }

  /** The bytes since the last whole triple. */
  function Held(m: Bytes): (t: Bytes)
    ensures |t| == |m| % 3
  {
    m[|m| - |m| % 3..]
  }

  function Whole(m: Bytes): (t: Bytes)
    ensures |t| % 3 == 0 && m == t + Held(m)
  {
    m[..|m| - |m| % 3]
  }

  /** After whole triples, encoding starts afresh. */
  lemma {:induction false} EmittedAfter(a: Bytes, b: Bytes)
    requires |a| % 3 == 0
    ensures Emitted(a + b) == Emitted(a) + Emitted(b)
    ensures Encode(a + b) == Emitted(a) + Encode(b)
    decreases |a|
  {
    hide Quad, Char, First, Second, Third;
    if a == [] {
      assert a + b == b;
    } else {
      EmittedAfter(a[3..], b);
      var q := Quad(a[0], a[1], a[2]);
      assert (a + b)[3..] == a[3..] + b;
      Assoc(q, Emitted(a[3..]), Emitted(b));
      Assoc(q, Emitted(a[3..]), Encode(b));
    }
  }

  lemma CarryHeld(m: Bytes)
    ensures Carry(m) == Carry(Held(m)) && Closing(m) == Closing(Held(m))
  {
    hide CarryOne, CarryTwo, Char;
  }

  lemma HeldByte(m: Bytes, b: bv8)
    ensures Whole(m) + (Held(m) + [b]) == m + [b]
    ensures Carry(m + [b]) == Carry(Held(m) + [b])
  {
    hide CarryOne, CarryTwo;
  }

  lemma OneClosing(a: bv8)
    ensures Emitted([a]) + Closing([a]) == Encode([a])
  {
    hide Char, First, Second, CarryOne;
    Carries(a, 0, 0);
  }

  lemma TwoClosing(a: bv8, b: bv8)
    ensures Emitted([a, b]) + Closing([a, b]) == Encode([a, b])
  {
    hide Char, First, Second, Third, CarryTwo;
    Carries(0, b, 0);
  }

  lemma OneHeld(t: Bytes)
    requires |t| == 1
    ensures Emitted(t) + Closing(t) == Encode(t)
  {
    hide Emitted, Closing, Encode;
    assert t == [t[0]];
    OneClosing(t[0]);
  }

  lemma TwoHeld(t: Bytes)
    requires |t| == 2
    ensures Emitted(t) + Closing(t) == Encode(t)
  {
    hide Emitted, Closing, Encode;
    assert t == [t[0], t[1]];
    TwoClosing(t[0], t[1]);
  }

  lemma SmallClosing(t: Bytes)
    requires |t| < 3
    ensures Emitted(t) + Closing(t) == Encode(t)
  {
    hide Emitted, Closing, Encode;
    if |t| == 0 {
      NoClosing(t);
    } else if |t| == 1 {
      OneHeld(t);
    } else {
      TwoHeld(t);
    }
  }

  lemma NoClosing(t: Bytes)
    requires |t| == 0
    ensures Emitted(t) + Closing(t) == Encode(t)
  {
  }

  /** The stream outputs and the final output together are the encoding. */
  lemma {:induction false} EmittedThenClosing(m: Bytes)
    ensures Emitted(m) + Closing(m) == Encode(m)
  {
    hide Emitted, Encode, Closing;
    EmittedAfter(Whole(m), Held(m));
    CarryHeld(m);
    SmallClosing(Held(m));
  }

  /** What one more byte adds, by the number of bytes held. */
  function Added(held: nat, carry: bv8, b: bv8): Bytes {
    if held == 0 then [Char(First(b))]
    else if held == 1 then [Char(With4(carry, b))]
    else [Char(With6(carry, b)), Char(Fourth(b))]
  }

  lemma SmallByte(t: Bytes, b: bv8)
    requires |t| < 3
    ensures Emitted(t + [b]) == Emitted(t) + Added(|t|, Carry(t), b)
  {
    hide Emitted, Added, Carry;
    if |t| == 0 {
      HeldNone(t, b);
    } else if |t| == 1 {
      HeldOne(t, b);
    } else {
      HeldTwo(t, b);
    }
  }

  lemma HeldNone(t: Bytes, b: bv8)
    requires |t| == 0
    ensures Emitted(t + [b]) == Emitted(t) + Added(0, Carry(t), b)
  {
    hide Emitted, Added, Carry;
    assert t == [] && t + [b] == [b];
    FirstByte(b);
  }

  lemma HeldOne(t: Bytes, b: bv8)
    requires |t| == 1
    ensures Emitted(t + [b]) == Emitted(t) + Added(1, Carry(t), b)
  {
    hide Emitted, Added, Carry;
    assert t == [t[0]];
    assert t + [b] == [t[0], b];
    SecondByte(t[0], b);
    CarrySmall(t[0], 0);
  }

  lemma HeldTwo(t: Bytes, b: bv8)
    requires |t| == 2
    ensures Emitted(t + [b]) == Emitted(t) + Added(2, Carry(t), b)
  {
    hide Emitted, Added, Carry;
    assert t == [t[0], t[1]];
    Concat3(t[0], t[1], b);
    ThirdByte(t[0], t[1], b);
    CarrySmall(t[0], t[1]);
  }

  lemma CarrySmall(a: bv8, b: bv8)
    ensures Carry([a]) == CarryOne(a) && Carry([a, b]) == CarryTwo(b)
  {
    hide CarryOne, CarryTwo;
  }

  lemma FirstByte(b: bv8)
    ensures Emitted([b]) == Emitted([]) + Added(0, Carry([]), b)
  {
    hide Char, First;
  }

  lemma SecondByte(a: bv8, b: bv8)
    ensures Emitted([a, b]) == Emitted([a]) + Added(1, CarryOne(a), b)
  {
    hide Char, First, Second, With4, CarryOne;
    Carries(a, b, 0);
  }

  lemma ThirdByte(a: bv8, b: bv8, c: bv8)
    ensures Emitted([a, b, c]) == Emitted([a, b]) + Added(2, CarryTwo(b), c)
  {
    hide Char, First, Second, Third, Fourth, With6, CarryTwo;
    Carries(0, b, c);
    EmittedTriple([], a, b, c);
    assert [] + [a, b, c] == [a, b, c];
    Concat4(Char(First(a)), Char(Second(a, b)), Char(With6(CarryTwo(b), c)), Char(Fourth(c)));
  }

  lemma Concat3(a: bv8, b: bv8, c: bv8)
    ensures [a, b] + [c] == [a, b, c]
  {
  }

  lemma Concat4(a: bv8, b: bv8, c: bv8, d: bv8)
    ensures [a, b] + [c, d] == [] + [a, b, c, d]
  {
  }

  lemma CarryByte(m: Bytes, b: bv8)
    ensures Carry(m + [b]) == if |m| % 3 == 0 then CarryOne(b) else if |m| % 3 == 1 then CarryTwo(b) else 0
  {
    hide CarryOne, CarryTwo;
  }

  lemma EmittedByte(m: Bytes, b: bv8)
    ensures Emitted(m + [b]) == Emitted(m) + Added(|m| % 3, Carry(m), b)
  {
    hide Emitted, Encode, Added, Carry, Closing, Whole;
    var w, t := Whole(m), Held(m);
    EmittedAfter(w, t);
    EmittedAfter(w, t + [b]);
    CarryHeld(m);
    HeldByte(m, b);
    SmallByte(t, b);
    Assoc(Emitted(w), Emitted(t), Added(|t|, Carry(m), b));
  }

  /** Three more bytes on a triple boundary. */
  lemma EmittedTriple(m: Bytes, a: bv8, b: bv8, c: bv8)
    requires |m| % 3 == 0
    ensures Emitted(m + [a, b, c]) == Emitted(m) + Quad(a, b, c)
  {
    hide Quad;
    EmittedAfter(m, [a, b, c]);
    assert Emitted([a, b, c]) == Quad(a, b, c) + Emitted([]);
  }

  // ----- Output buffers

  /** s with d written from position at on. */
  ghost predicate Written(s: Bytes, t: Bytes, at: nat, d: Bytes) {
    at + |d| <= |s| == |t| && t[..at] == s[..at] && t[at..at + |d|] == d && t[at + |d|..] == s[at + |d|..]
  }

  lemma WrittenMore(s: Bytes, t: Bytes, u: Bytes, at: nat, d: Bytes, e: Bytes)
    requires Written(s, t, at, d) && Written(t, u, at + |d|, e)
    ensures Written(s, u, at, d + e)
  {
    assert u[..at] == u[..at + |d|][..at] && t[..at] == t[..at + |d|][..at];
    assert u[at..at + |d|] == u[..at + |d|][at..] && t[at..at + |d|] == t[..at + |d|][at..];
    assert u[at..at + |d| + |e|] == u[at..at + |d|] + u[at + |d|..at + |d| + |e|];
    assert t[at + |d|..][|e|..] == t[at + |d| + |e|..] && s[at + |d|..][|e|..] == s[at + |d| + |e|..];
  }

  method Put(out: array<bv8>, o: nat, c: bv8, ghost base: Bytes, ghost at: nat, ghost d: Bytes)
    requires o < out.Length && o == at + |d| && Written(base, out[..], at, d)
    modifies out
    ensures Written(base, out[..], at, d + [c])
  {
    ghost var t := out[..];
    out[o] := c;
    assert Written(t, out[..], o, [c]);
    WrittenMore(base, t, out[..], at, d, [c]);
  }

  // ----- The encoder

  /** Emitted(src[s0..s]) has been written at position at. */
  ghost predicate InStep(src: Bytes, s0: nat, s: nat, base: Bytes, t: Bytes, at: nat, o: nat) {
    && s0 <= s <= |src| && (s - s0) % 3 == 0 && o == at + (s - s0) / 3 * 4
    && Written(base, t, at, Emitted(src[s0..s]))
  }

  method PutQuad(out: array<bv8>, o: nat, w: bv32, ghost base: Bytes, ghost at: nat, ghost d: Bytes)
    requires o + 4 <= out.Length && o == at + |d| && Written(base, out[..], at, d)
    modifies out
    ensures Written(base, out[..], at, d + Fields(w))
  {
    hide Char, Field24, Written;
    Put(out, o, Char(Field24(w, 0)), base, at, d);
    Put(out, o + 1, Char(Field24(w, 1)), base, at, d + [Char(Field24(w, 0))]);
    Put(out, o + 2, Char(Field24(w, 2)), base, at, d + [Char(Field24(w, 0))] + [Char(Field24(w, 1))]);
    Put(out, o + 3, Char(Field24(w, 3)), base, at,
        d + [Char(Field24(w, 0))] + [Char(Field24(w, 1))] + [Char(Field24(w, 2))]);
    Append4(d, Char(Field24(w, 0)), Char(Field24(w, 1)), Char(Field24(w, 2)), Char(Field24(w, 3)));
  }

  function Fields(w: bv32): Bytes {
    [Char(Field24(w, 0)), Char(Field24(w, 1)), Char(Field24(w, 2)), Char(Field24(w, 3))]
  }

  lemma Append4(d: Bytes, a: bv8, b: bv8, c: bv8, e: bv8)
    ensures d + [a] + [b] + [c] + [e] == d + [a, b, c, e]
  {
  }

  lemma QuadFields(a: bv8, b: bv8, c: bv8)
    ensures Fields(Read24(a, b, c)) == Quad(a, b, c)
  {
    hide Char, Read24, First, Second, Third, Fourth, Field24;
    Field24Is(a, b, c);
  }

  /** Encodes the next three source bytes. */
  method EncInner(src: Bytes, s: nat, out: array<bv8>, o: nat, ghost s0: nat, ghost base: Bytes, ghost at: nat)
    returns (s': nat, o': nat)
    requires s + 3 <= |src| && o + 4 <= out.Length && InStep(src, s0, s, base, out[..], at, o)
    modifies out
    ensures s' == s + 3 && o' == o + 4 && InStep(src, s0, s', base, out[..], at, o')
  {
    hide Char, Read24, Emitted, Quad, Fields;
    var w := Read24(src[s], src[s + 1], src[s + 2]);
    PutQuad(out, o, w, base, at, Emitted(src[s0..s]));
    QuadFields(src[s], src[s + 1], src[s + 2]);
    EmittedTriple(src[s0..s], src[s], src[s + 1], src[s + 2]);
    assert src[s0..s + 3] == src[s0..s] + [src[s], src[s + 1], src[s + 2]];
    s', o' := s + 3, o + 4;
  }

  /** Leaves one to three bytes unencoded: exactly (slen - 1) / 3 triples are done, eight, four,
      two or one at a time. */
  method EncLoop(src: Bytes, s0: nat, slen0: nat, out: array<bv8>, o0: nat)
    returns (s: nat, slen: nat, o: nat)
    requires s0 + slen0 == |src| && (slen0 >= 4 ==> o0 + (slen0 - 1) / 3 * 4 <= out.Length)
    modifies out
    ensures slen == if slen0 < 4 then slen0 else slen0 - (slen0 - 1) / 3 * 3
    ensures s == s0 + slen0 - slen && o == o0 + (slen0 - slen) / 3 * 4
    ensures o0 <= out.Length ==> Written(old(out[..]), out[..], o0, Emitted(src[s0..s]))
  {
    s, slen, o := s0, slen0, o0;
    assert src[s0..s0] == [];
    if slen < 4 {
      return;
    }
    hide Emitted, Written;
    var rounds := (slen - 1) / 3;
    ghost var all, base := rounds, out[..];
    slen := slen - rounds * 3;
    WrittenNothing(base, o0);
    var more := true;
    while more
      invariant 0 <= rounds <= all && more == (rounds > 0)
      invariant s == s0 + (all - rounds) * 3 && o == o0 + (all - rounds) * 4
      invariant InStep(src, s0, s, base, out[..], o0, o)
      decreases rounds
    {
      if rounds >= 8 {
        s, o := EncInner(src, s, out, o, s0, base, o0);
        s, o := EncInner(src, s, out, o, s0, base, o0);
        s, o := EncInner(src, s, out, o, s0, base, o0);
        s, o := EncInner(src, s, out, o, s0, base, o0);
        s, o := EncInner(src, s, out, o, s0, base, o0);
        s, o := EncInner(src, s, out, o, s0, base, o0);
        s, o := EncInner(src, s, out, o, s0, base, o0);
        s, o := EncInner(src, s, out, o, s0, base, o0);
        rounds := rounds - 8;
      } else if rounds >= 4 {
        s, o := EncInner(src, s, out, o, s0, base, o0);
        s, o := EncInner(src, s, out, o, s0, base, o0);
        s, o := EncInner(src, s, out, o, s0, base, o0);
        s, o := EncInner(src, s, out, o, s0, base, o0);
        rounds := rounds - 4;
      } else if rounds >= 2 {
        s, o := EncInner(src, s, out, o, s0, base, o0);
        s, o := EncInner(src, s, out, o, s0, base, o0);
        rounds := rounds - 2;
      } else {
        s, o := EncInner(src, s, out, o, s0, base, o0);
        rounds := 0;
      }
      more := rounds > 0;
    }
  }

  lemma WrittenNothing(s: Bytes, at: nat)
    requires at <= |s|
    ensures Written(s, s, at, Emitted([]))
  {
  }

  lemma CountMono(i: nat, j: nat)
    requires i <= j
    ensures Count(i) <= Count(j)
  {
  }

  /** One more byte, seen from the start of the call. */
  lemma TailGrows(m: Bytes, b: bv8, e0: nat)
    requires e0 <= |Emitted(m)|
    ensures Emitted(m + [b])[e0..] == Emitted(m)[e0..] + Added(|m| % 3, Carry(m), b)
    ensures Emitted(m)[..e0] == Emitted(m + [b])[..e0]
  {
    hide Emitted, Added, Carry;
    EmittedByte(m, b);
  }

  /** Feeding src took fed0 to fed1 and wrote exactly what that adds to the emitted text. */
  ghost predicate Since(fed0: Bytes, fed1: Bytes, src: Bytes, before: Bytes, after: Bytes, at: nat) {
    && fed1 == fed0 + src && Emitted(fed0) <= Emitted(fed1)
    && Written(before, after, at, Emitted(fed1)[|Emitted(fed0)|..])
  }

  class Stream {
    var bytes: int
    var carry: bv8
    ghost var fed: Bytes

    ghost predicate Valid()
      reads this
    {
      bytes == |fed| % 3 && (bytes == 0 || carry == Carry(fed))
    }

    constructor Init()
      ensures Valid() && fed == []
    {
      bytes, carry, fed := 0, 0, [];
    }

    /** In a call that began with fed0 and output base: everything emitted since is written at `at`,
        and the rest of the call will fit. */
    ghost predicate Busy(fed0: Bytes, src: Bytes, s: nat, base: Bytes, t: Bytes, at: nat, o: nat)
      reads this
    {
      && Valid() && s <= |src| && fed == fed0 + src[..s] && |t| == |base|
      && |Emitted(fed0)| <= |Emitted(fed)| && o == at + |Emitted(fed)| - |Emitted(fed0)|
      && Written(base, t, at, Emitted(fed)[|Emitted(fed0)|..])
      && at + Count(|fed0| + |src|) - Count(|fed0|) <= |base|
    }

    /** case 0: nothing held. */
    method CaseZero(src: Bytes, s: nat, out: array<bv8>, o: nat, ghost fed0: Bytes, ghost base: Bytes, ghost at: nat)
      returns (o': nat)
      requires s < |src| && bytes == 0 && Busy(fed0, src, s, base, out[..], at, o)
      modifies this, out
      ensures Busy(fed0, src, s + 1, base, out[..], at, o') && bytes == 1
    {
      hide Emitted, Written, Carry, Char, First, CarryOne, CarryTwo, With4, With6, Fourth, Count;
      ghost var d := Emitted(fed)[|Emitted(fed0)|..];
      NextByte(fed0, src, s);
      Put(out, o, Char(First(src[s])), base, at, d);
      carry, bytes, o' := CarryOne(src[s]), 1, o + 1;
      fed := fed + [src[s]];
    }

    /** case 1: two bits held. */
    method CaseOne(src: Bytes, s: nat, out: array<bv8>, o: nat, ghost fed0: Bytes, ghost base: Bytes, ghost at: nat)
      returns (o': nat)
      requires s < |src| && bytes == 1 && Busy(fed0, src, s, base, out[..], at, o)
      modifies this, out
      ensures Busy(fed0, src, s + 1, base, out[..], at, o') && bytes == 2
    {
      hide Emitted, Written, Carry, Char, First, CarryOne, CarryTwo, With4, With6, Fourth, Count;
      ghost var d := Emitted(fed)[|Emitted(fed0)|..];
      NextByte(fed0, src, s);
      Put(out, o, Char(With4(carry, src[s])), base, at, d);
      carry, bytes, o' := CarryTwo(src[s]), 2, o + 1;
      fed := fed + [src[s]];
    }

    /** case 2: four bits held. */
    method CaseTwo(src: Bytes, s: nat, out: array<bv8>, o: nat, ghost fed0: Bytes, ghost base: Bytes, ghost at: nat)
      returns (o': nat)
      requires s < |src| && bytes == 2 && Busy(fed0, src, s, base, out[..], at, o)
      modifies this, out
      ensures Busy(fed0, src, s + 1, base, out[..], at, o') && bytes == 0
    {
      hide Emitted, Written, Carry, Char, First, CarryOne, CarryTwo, With4, With6, Fourth, Count;
      ghost var d := Emitted(fed)[|Emitted(fed0)|..];
      NextByte(fed0, src, s);
      Put(out, o, Char(With6(carry, src[s])), base, at, d);
      Put(out, o + 1, Char(Fourth(src[s])), base, at, d + [Char(With6(carry, src[s]))]);
      TwoMore(d, Char(With6(carry, src[s])), Char(Fourth(src[s])));
      bytes, o' := 0, o + 2;
      fed := fed + [src[s]];
    }

    /** The unrolled loop, entered with nothing held. */
    method Triples(src: Bytes, s0: nat, slen0: nat, out: array<bv8>, o0: nat,
                   ghost fed0: Bytes, ghost base: Bytes, ghost at: nat)
      returns (s: nat, slen: nat, o: nat)
      requires s0 + slen0 == |src| && bytes == 0 && Busy(fed0, src, s0, base, out[..], at, o0)
      modifies this, out
      ensures s + slen == |src| && s0 <= s && bytes == 0 && Busy(fed0, src, s, base, out[..], at, o)
    {
      hide Emitted, Written, Count, Carry;
      ghost var before := out[..];
      TriplesFit(fed0, src, s0);
      WrittenEnd(base, before, at, Emitted(fed)[|Emitted(fed0)|..]);
      s, slen, o := EncLoop(src, s0, slen0, out, o0);
      TriplesDone(fed0, src, s0, s, base, before, out[..], at);
      fed := fed + src[s0..s];
    }

    /** The resumable loop: it enters at the case for the bytes held and leaves when src is used up. */
    method Resume(src: Bytes, out: array<bv8>, at: nat) returns (o: nat)
      requires Valid() && at + Count(|fed| + |src|) - Count(|fed|) <= out.Length
      modifies this, out
      ensures Valid() && Since(old(fed), fed, src, old(out[..]), out[..], at)
      ensures o == at + |Emitted(fed)| - |Emitted(old(fed))|
    {
      hide Emitted, Written, Count, Carry;
      ghost var fed0, base := fed, out[..];
      var s: nat, slen: nat := 0, |src|;
      o := at;
      var entry := bytes;
      CallStart(fed0, src, base, at);
      while true
        invariant Busy(fed0, src, s, base, out[..], at, o) && s + slen == |src| && entry == bytes
        decreases slen
      {
        if entry == 0 {
          s, slen, o := Triples(src, s, slen, out, o, fed0, base, at);
          if slen == 0 {
            break;
          }
          o := CaseZero(src, s, out, o, fed0, base, at);
          s, slen := s + 1, slen - 1;
        }
        if entry <= 1 {
          if slen == 0 {
            break;
          }
          o := CaseOne(src, s, out, o, fed0, base, at);
          s, slen := s + 1, slen - 1;
        }
        if slen == 0 {
          break;
        }
        o := CaseTwo(src, s, out, o, fed0, base, at);
        s, slen := s + 1, slen - 1;
        entry := 0;
      }
      assert src[..s] == src;
      CallEnd(fed0, src);
    }

    /** Encodes src, or, if even its whole triples would not fit outLen, only reports their size. */
    method Encode(src: Bytes, out: array<bv8>, at: nat, outLen: nat) returns (ret: int, newLen: nat)
      requires Valid()
      requires |src| / 3 * 4 <= outLen ==> at + Count(|fed| + |src|) - Count(|fed|) <= out.Length
      modifies this, out
      ensures Valid()
      ensures |src| / 3 * 4 > outLen ==>
                fed == old(fed) && out[..] == old(out[..]) && ret == newLen == |src| / 3 * 4
      ensures |src| == 0 ==> fed == old(fed) && out[..] == old(out[..]) && ret == 0 && newLen == outLen
      ensures |src| / 3 * 4 <= outLen && |src| > 0 ==>
                && Since(old(fed), fed, src, old(out[..]), out[..], at)
                && ret == newLen == |Emitted(fed)| - |Emitted(old(fed))|
    {
      hide Emitted, Count, Written;
      var olen := |src| / 3 * 4;
      if olen > outLen {
        return olen, olen;
      }
      if |src| == 0 {
        return 0, outLen;
      }
      ghost var fed0 := fed;
      var o := Resume(src, out, at);
      ret, newLen := o - at, o - at;
    }

    /** Pads what is held and terminates the text with a null byte, if there is room for both. */
    method Final(out: array<bv8>, at: nat, outLen: nat) returns (ret: int, newLen: nat)
      requires Valid() && at + outLen <= out.Length
      modifies out
      ensures ret == newLen == |Closing(fed)|
      ensures if outLen <= |Closing(fed)| then out[..] == old(out[..])
              else Written(old(out[..]), out[..], at, Closing(fed) + [0])
    {
      hide Char, CarryOne, CarryTwo;
      newLen := if bytes == 1 then 3 else if bytes == 2 then 2 else 0;
      ret := newLen;
      if outLen < newLen + 1 {
        return;
      }
      ghost var base := out[..];
      NothingWritten(base, at);
      if bytes != 0 {
        hide Written;
        Put(out, at, Char(carry), base, at, []);
        Put(out, at + 1, PAD, base, at, [] + [Char(carry)]);
        if bytes == 1 {
          Put(out, at + 2, PAD, base, at, [] + [Char(carry)] + [PAD]);
        }
        assert Closing(fed) == if bytes == 1 then [] + [Char(carry)] + [PAD] + [PAD] else [] + [Char(carry)] + [PAD];
      } else {
        assert Closing(fed) == [];
      }
      Put(out, at + newLen, 0, base, at, Closing(fed));
    }
  }

  /** The room check counts whole triples of this call alone: it covers what a call writes exactly
      when the call brings a multiple of three bytes. */
  lemma RoomCheckIff(fed: nat, len: nat)
    ensures Count(fed + len) - Count(fed) <= len / 3 * 4 <==> len % 3 == 0
  {
    var held, rest := fed % 3, len % 3;
    if held + rest < 3 {
      assert (fed + len) / 3 == fed / 3 + len / 3 && (fed + len) % 3 == held + rest;
    } else {
      assert (fed + len) / 3 == fed / 3 + len / 3 + 1 && (fed + len) % 3 == held + rest - 3;
    }
  }

  /** A first call with exactly the room the check asks for passes it, and writes more than that room unless its
      length is a multiple of three. */
  method FillExactly(src: Bytes) returns (outLen: nat, written: int)
    requires src != []
    ensures outLen == |src| / 3 * 4 && written == Count(|src|)
    ensures written > outLen <==> |src| % 3 != 0
  {
    hide Emitted;
    outLen := |src| / 3 * 4;
    var out := new bv8[Count(|src|)];
    var stream := new Stream.Init();
    var ret;
    ret, written := stream.Encode(src, out, 0, outLen);
    assert [] + src == src;
  }

  lemma NothingWritten(s: Bytes, at: nat)
    requires at <= |s|
    ensures Written(s, s, at, [])
  {
  }

  /** The unrolled loop stays inside the room of the call. */
  lemma TriplesFit(fed0: Bytes, src: Bytes, s: nat)
    requires s <= |src| && (|fed0| + s) % 3 == 0
    ensures var left := |src| - s;
            left >= 4 ==> Count(|fed0| + s) + (left - 1) / 3 * 4 <= Count(|fed0| + |src|)
  {
    var n := |fed0| + s;
    if |src| - s >= 4 {
      var k := (|src| - s - 1) / 3 * 3;
      CountWhole(n);
      assert Count(n + k) == Count(n) + k / 3 * 4;
      CountMono(n + k, |fed0| + |src|);
    }
  }

  lemma TriplesDone(fed0: Bytes, src: Bytes, s0: nat, s: nat, base: Bytes, before: Bytes, after: Bytes, at: nat)
    requires s0 <= s <= |src| && (|fed0| + s0) % 3 == 0 && (s - s0) % 3 == 0
    requires |Emitted(fed0)| <= |Emitted(fed0 + src[..s0])|
    requires var d := Emitted(fed0 + src[..s0])[|Emitted(fed0)|..];
             Written(base, before, at, d) && Written(before, after, at + |d|, Emitted(src[s0..s]))
    ensures var m, n := fed0 + src[..s0], fed0 + src[..s];
            && n == m + src[s0..s] && |Emitted(n)| == |Emitted(m)| + (s - s0) / 3 * 4
            && Written(base, after, at, Emitted(n)[|Emitted(fed0)|..])
  {
    hide Emitted, Written;
    var m, t, e0 := fed0 + src[..s0], src[s0..s], |Emitted(fed0)|;
    Glue(fed0, src, s0, s);
    EmittedAfter(m, t);
    CountWhole(|t|);
    WrittenMore(base, before, after, at, Emitted(m)[e0..], Emitted(t));
    DropFront(Emitted(m), Emitted(t), e0);
  }

  lemma Glue(fed0: Bytes, src: Bytes, s0: nat, s: nat)
    requires s0 <= s <= |src|
    ensures fed0 + src[..s] == (fed0 + src[..s0]) + src[s0..s]
  {
  }

  lemma DropFront(a: Bytes, b: Bytes, n: nat)
    requires n <= |a|
    ensures (a + b)[n..] == a[n..] + b
  {
  }

  lemma CountWhole(n: nat)
    ensures n % 3 == 0 ==> Count(n) == n / 3 * 4
  {
  }

  lemma WrittenEnd(s: Bytes, t: Bytes, at: nat, d: Bytes)
    requires Written(s, t, at, d)
    ensures at + |d| <= |t|
  {
  }

  lemma CallStart(fed0: Bytes, src: Bytes, base: Bytes, at: nat)
    requires at + Count(|fed0| + |src|) - Count(|fed0|) <= |base|
    ensures fed0 == fed0 + src[..0] && Emitted(fed0)[|Emitted(fed0)|..] == [] && Written(base, base, at, [])
  {
    CountMono(|fed0|, |fed0| + |src|);
  }

  lemma CallEnd(fed0: Bytes, src: Bytes)
    ensures |Emitted(fed0)| <= |Emitted(fed0 + src)|
    ensures Emitted(fed0) <= Emitted(fed0 + src)
    decreases |src|
  {
    hide Emitted, Carry;
    CountMono(|fed0|, |fed0| + |src|);
    PrefixKept(fed0, src);
  }

  lemma {:induction false} PrefixKept(m: Bytes, t: Bytes)
    ensures Emitted(m) <= Emitted(m + t)
    decreases |t|
  {
    hide Emitted, Carry, Added;
    if t == [] {
      assert m + t == m;
    } else {
      EmittedByte(m, t[0]);
      PrefixKept(m + [t[0]], t[1..]);
      assert m + [t[0]] + t[1..] == m + t;
    }
  }

  /** What the next source byte adds to the output of the call, and that it fits. */
  lemma NextByte(fed0: Bytes, src: Bytes, s: nat)
    requires s < |src|
    ensures var m := fed0 + src[..s];
            var n := m + [src[s]];
            var e0 := |Emitted(fed0)|;
            && n == fed0 + src[..s + 1]
            && e0 <= |Emitted(m)| <= |Emitted(n)| <= Count(|fed0| + |src|)
            && Emitted(n)[e0..] == Emitted(m)[e0..] + Added(|m| % 3, Carry(m), src[s])
            && |Emitted(n)| == |Emitted(m)| + (if |m| % 3 == 2 then 2 else 1)
            && Carry(n) == (if |m| % 3 == 0 then CarryOne(src[s]) else if |m| % 3 == 1 then CarryTwo(src[s]) else 0)
  {
    hide Emitted, Carry, CarryOne, CarryTwo;
    var m := fed0 + src[..s];
    CountMono(|fed0|, |m|);
    CountMono(|m| + 1, |fed0| + |src|);
    CountMono(|m|, |m| + 1);
    TailGrows(m, src[s], |Emitted(fed0)|);
    CarryByte(m, src[s]);
    assert m + [src[s]] == fed0 + src[..s + 1];
  }

  lemma TwoMore(d: Bytes, a: bv8, b: bv8)
    ensures d + [a] + [b] == d + [a, b]
  {
  }
}
