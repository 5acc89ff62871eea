/** Length/tag/value records: the byte layout shared by the builder and the advertising data iterator. */
module LtvRecords {
  import opened Widths
  import opened Sequences

  type Bytes = seq<uint8>

  /** The length byte counts payload and tag. */
  type Payload = d: Bytes | |d| < 0xff

  datatype Record = Record(tag: uint8, payload: Payload)

  function EncodeOne(r: Record): (d: Bytes)
    ensures |d| == 2 + |r.payload|
  {
    [1 + |r.payload|, r.tag] + r.payload
  }

  function Encode(rs: seq<Record>): Bytes
  {
    if rs == [] then [] else EncodeOne(rs[0]) + Encode(rs[1..])
  }

  /** What an iterator yields: it stops at a chunk that is empty or incomplete. */
  function Decode(d: Bytes): (rs: seq<Record>)
    decreases |d|
  {
    if |d| < 2 || d[0] == 0 || 1 + d[0] > |d| then []
    else [Record(d[1], d[2..1 + d[0]])] + Decode(d[1 + d[0]..])
  }

  lemma {:induction false} EncodeAppend(a: seq<Record>, b: seq<Record>)
    ensures Encode(a + b) == Encode(a) + Encode(b)
  {
    if a == [] {
      assert a + b == b;
    } else {
      assert (a + b)[1..] == a[1..] + b;
      EncodeAppend(a[1..], b);
      Assoc(EncodeOne(a[0]), Encode(a[1..]), Encode(b));
    }
  }

  lemma EncodeSingle(r: Record)
    ensures Encode([r]) == EncodeOne(r)
  {
    assert Encode([r][1..]) == [];
  }

  lemma DecodeOne(r: Record, rest: Bytes)
    ensures Decode(EncodeOne(r) + rest) == [r] + Decode(rest)
  {
    var d := EncodeOne(r) + rest;
    assert d[2..1 + d[0]] == r.payload && d[1 + d[0]..] == rest;
  }

  lemma FirstApart(rs: seq<Record>, rest: Bytes, more: seq<Record>)
    requires rs != []
    ensures Encode(rs) + rest == EncodeOne(rs[0]) + (Encode(rs[1..]) + rest)
    ensures rs + more == [rs[0]] + (rs[1..] + more)
  {
    Assoc(EncodeOne(rs[0]), Encode(rs[1..]), rest);
  }

  lemma NoRecords(rest: Bytes)
    ensures Decode(Encode([]) + rest) == [] + Decode(rest)
  {
    assert Encode([]) + rest == rest;
  }

  /** Every sequence of records is read back, followed by whatever the rest decodes to. */
  lemma {:induction false} DecodeEncode(rs: seq<Record>, rest: Bytes)
    ensures Decode(Encode(rs) + rest) == rs + Decode(rest)
  {
    hide Decode, Encode, EncodeOne;
    if rs == [] {
      NoRecords(rest);
    } else {
      FirstApart(rs, rest, Decode(rest));
      DecodeOne(rs[0], Encode(rs[1..]) + rest);
      DecodeEncode(rs[1..], rest);
    }
  }

  /** The n low bytes of v, lowest first. */
  function LeBytes(v: nat, n: nat): (d: Bytes)
    ensures |d| == n
  {
    if n == 0 then [] else [v % 0x100] + LeBytes(v / 0x100, n - 1)
  }

  /** Byte by byte, for the widths there are. */
  lemma LeBytesAre(v: nat, n: nat)
    requires n <= 4
    ensures n > 0 ==> LeBytes(v, n)[0] == v % 0x100
    ensures n > 1 ==> LeBytes(v, n)[1] == v / 0x100 % 0x100
    ensures n > 2 ==> LeBytes(v, n)[2] == v / 0x1_0000 % 0x100
    ensures n > 3 ==> LeBytes(v, n)[3] == v / 0x100_0000 % 0x100
  {
    assert v / 0x100 / 0x100 == v / 0x1_0000 && v / 0x1_0000 / 0x100 == v / 0x100_0000;
    assert n > 1 ==> LeBytes(v, n)[1..] == LeBytes(v / 0x100, n - 1);
    assert n > 2 ==> LeBytes(v / 0x100, n - 1)[1..] == LeBytes(v / 0x1_0000, n - 2);
    assert n > 3 ==> LeBytes(v / 0x1_0000, n - 2)[1..] == LeBytes(v / 0x100_0000, n - 3);
  }

  /** A record as bytes: a length that counts the tag, the tag, the payload. */
  lemma EncodeOneIs(r: Record, d: Bytes)
    ensures d == EncodeOne(r) <==>
      |d| == 2 + |r.payload| && d[0] == 1 + |r.payload| && d[1] == r.tag && d[2..] == r.payload
  {
    if |d| >= 2 {
      assert d == [d[0], d[1]] + d[2..];
    }
  }
}
