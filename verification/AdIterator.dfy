/** The iterator over advertising data, and what it makes of built records. */
module AdIterator {
  import opened Widths
  import opened Sequences
  import opened LtvRecords
  import opened LtvBuilder

  class AdContext {
    const data: Bytes
    const length: uint8
    var offset: uint8

    constructor (length: uint8, data: Bytes)
      requires length <= |data|
      ensures this.data == data && this.length == length && offset == 0
    {
      this.length, this.data, offset := length, data, 0;
    }

    /** What lies ahead. */
    ghost function Ahead(): Bytes
      requires offset <= length <= |data|
      reads this
    {
      data[offset..length]
    }

    method HasMore() returns (more: bool)
      requires offset <= length <= |data|
      ensures more == (Decode(Ahead()) != [])
      ensures more <==> offset + 2 <= length && data[offset] > 0 && offset + 1 + data[offset] <= length
    {
      if offset + 1 >= length { return false; }
      var chunkLen := data[offset];
      if chunkLen == 0 { return false; }
      return offset + 1 + chunkLen <= length;
    }

    /** The chunk in front. */
    method Get() returns (r: Record)
      requires offset <= length <= |data| && Decode(Ahead()) != []
      ensures r == Decode(Ahead())[0] && offset + 1 + data[offset] <= length
      ensures r.tag == data[offset + 1] && r.payload == data[offset + 2..offset + 1 + data[offset]]
    {
      var dataLen, dataType := data[offset] - 1, data[offset + 1];
      SliceOfSlice(data, offset, length, 2, 2 + dataLen);
      r := Record(dataType, data[offset + 2..offset + 2 + dataLen]);
    }

    /** The offset has eight bits; the sum never needs more. */
    method Next()
      requires offset <= length <= |data| && Decode(Ahead()) != []
      modifies this
      ensures offset <= length && offset == old(offset) + 1 + data[old(offset)]
      ensures Decode(Ahead()) == old(Decode(Ahead()))[1..]
      ensures Ahead() == old(Ahead())[1 + data[old(offset)]..]
    {
      var chunkLen := data[offset];
      offset := ToUint8(offset + 1 + chunkLen);
    }
  }

  lemma FrontBytes(d: Bytes, len: nat)
    requires |d| >= 2 && len == d[0] && 0 < len < |d|
    ensures d[..1 + len] == EncodeOne(Record(d[1], d[2..1 + len]))
  {
    var p := d[2..1 + len];
    assert d[..1 + len] == d[..2] + p && d[..2] == [1 + |p|, d[1]];
  }

  /** The first record of d takes up exactly its encoding. */
  lemma FirstRecord(d: Bytes)
    requires Decode(d) != []
    ensures |d| >= 2 && 1 + d[0] <= |d| && d[..1 + d[0]] == EncodeOne(Decode(d)[0])
    ensures Decode(d) == [Decode(d)[0]] + Decode(d[1 + d[0]..])
  {
    hide EncodeOne;
    FrontBytes(d, d[0]);
  }

  lemma Split(d: Bytes, at: nat, n: nat)
    requires at + n <= |d|
    ensures d[..at + n] == d[..at] + d[at..][..n] && d[at..][n..] == d[at + n..]
  {
  }

  lemma ReadStepBytes(d: Bytes, at: nat, n: nat, rs: seq<Record>, r: Record)
    requires at + n <= |d| && d[..at] == Encode(rs) && d[at..][..n] == EncodeOne(r)
    ensures d[..at + n] == Encode(rs + [r])
  {
    EncodeAppend(rs, [r]);
    EncodeSingle(r);
    hide Encode, EncodeOne;
    Split(d, at, n);
  }

  lemma ReadStep(d: Bytes, at: nat, rs: seq<Record>) returns (r: Record, next: nat)
    requires at <= |d| && d[..at] == Encode(rs) && Decode(d[at..]) != []
    ensures d[at..] != [] && next == at + 1 + d[at] <= |d| && r == Decode(d[at..])[0]
    ensures d[..next] == Encode(rs + [r])
    ensures rs + Decode(d[at..]) == (rs + [r]) + Decode(d[next..])
  {
    hide Decode, Encode, EncodeOne;
    var x := d[at..];
    FirstRecord(x);
    var len: nat := x[0];
    r, next := Decode(x)[0], at + 1 + len;
    DropTwice(d, at, 1 + len);
    ReadStepBytes(d, at, 1 + len, rs, r);
    ReadStepRecords(rs, r, Decode(x), Decode(d[next..]));
  }

  lemma DropTwice(d: Bytes, at: nat, n: nat)
    requires at + n <= |d|
    ensures d[at..][n..] == d[at + n..]
  {
  }

  lemma ReadStepRecords(rs: seq<Record>, r: Record, now: seq<Record>, later: seq<Record>)
    requires now == [r] + later
    ensures rs + now == (rs + [r]) + later
  {
  }

  lemma ReadBack(d: Bytes, rs: seq<Record>, end: nat)
    requires end <= |d| && rs == Decode(d) && d[..end] == Encode(rs)
    ensures forall built: seq<Record> :: d == Encode(built) ==> rs == built && end == |d|
  {
    forall built: seq<Record> | d == Encode(built)
      ensures rs == built && end == |d|
    {
      DecodeEncode(built, []);
      assert Encode(built) + [] == d && built + Decode([]) == built;
    }
  }

  method ReadOne(context: AdContext, ghost rs: seq<Record>) returns (r: Record)
    requires context.offset <= context.length <= |context.data| && Decode(context.Ahead()) != []
    requires context.data[..context.offset] == Encode(rs)
    modifies context
    ensures old(context.offset) < context.offset <= context.length
    ensures context.data[..context.offset] == Encode(rs + [r])
    ensures old(rs + Decode(context.Ahead())) == (rs + [r]) + Decode(context.Ahead())
  {
    ghost var d, at := context.data[..context.length], context.offset;
    assert d[at..] == context.Ahead() && d[..at] == context.data[..at];
    hide Decode, Encode;
    ghost var first, next := ReadStep(d, at, rs);
    r := context.Get();
    context.Next();
    assert d[context.offset..] == context.Ahead() && d[..context.offset] == context.data[..context.offset];
  }

  /** Reads all records; end is where the iterator stops. Built records are read back one for one, to the
      last byte. */
  method ReadAll(length: uint8, data: Bytes) returns (rs: seq<Record>, end: uint8)
    requires length <= |data|
    ensures rs == Decode(data[..length]) && end <= length && data[..end] == Encode(rs)
    ensures forall built: seq<Record> :: data[..length] == Encode(built) ==> rs == built && end == length
  {
    var context := new AdContext(length, data);
    rs := [];
    assert Encode([]) == [];
    hide Decode, Encode;
    var more := context.HasMore();
    while more
      invariant fresh(context) && context.data == data && context.length == length && context.offset <= length
      invariant rs + Decode(context.Ahead()) == Decode(data[..length])
      invariant more == (Decode(context.Ahead()) != [])
      invariant data[..context.offset] == Encode(rs)
      decreases length - context.offset
    {
      var r := ReadOne(context, rs);
      rs := rs + [r];
      more := context.HasMore();
    }
    end := context.offset;
    ReadBack(data[..length], rs, end);
  }

  /** What was built with tags and fixed-width values is read back, as long as an advertisement can hold it. */
  method ReadBuilt(builder: Builder) returns (rs: seq<Record>, end: uint8)
    requires builder.Valid() && builder.writePos < 0x100
    ensures rs == builder.records && end == builder.writePos
  {
    rs, end := ReadAll(builder.writePos, builder.buffer[..]);
    assert builder.buffer[..][..builder.writePos] == builder.buffer[..builder.writePos];
  }
}
