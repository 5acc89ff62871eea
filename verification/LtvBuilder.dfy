/** The record builder. What its asserts demand is what its methods require. */
module LtvBuilder {
  import opened Widths
  import opened LtvRecords

  /** The last record with more payload. */
  function Grown(rs: seq<Record>, d: Bytes): (r: seq<Record>)
    requires rs != [] && |rs[|rs| - 1].payload| + |d| < 0xff
    ensures |r| == |rs| && r[..|r| - 1] == rs[..|rs| - 1]
  {
    var last := rs[|rs| - 1];
    rs[..|rs| - 1] + [Record(last.tag, last.payload + d)]
  }

  lemma GrownEncoded(rs: seq<Record>, d: Bytes)
    requires rs != [] && |rs[|rs| - 1].payload| + |d| < 0xff
    ensures var at, n := |Encode(rs[..|rs| - 1])|, |rs[|rs| - 1].payload|;
            at < |Encode(rs)| && Encode(rs)[at] == 1 + n && Encode(Grown(rs, d)) == Encode(rs)[at := 1 + n + |d|] + d
  {
    var init, last := rs[..|rs| - 1], rs[|rs| - 1];
    var more := Record(last.tag, last.payload + d);
    assert rs == init + [last];
    EncodeAppend(init, [last]);
    EncodeAppend(init, [more]);
    EncodeSingle(last);
    EncodeSingle(more);
    hide Encode;
    LengthAndTail(Encode(init), last, d);
  }

  lemma LengthAndTail(front: Bytes, r: Record, d: Bytes)
    requires |r.payload| + |d| < 0xff
    ensures var at := |front|;
            front + EncodeOne(Record(r.tag, r.payload + d)) == (front + EncodeOne(r))[at := 1 + |r.payload| + |d|] + d
  {
  }

  class Builder {
    const buffer: array<uint8>
    const size: uint16
    var writePos: uint16
    var lenPos: uint16
    ghost var records: seq<Record>

    constructor (buffer: array<uint8>, size: uint16)
      requires size <= buffer.Length
      ensures Valid() && records == [] && this.buffer == buffer && this.size == size
    {
      this.buffer, this.size := buffer, size;
      writePos, lenPos, records := 0, 0, [];
    }

    /** The buffer holds the encoded records, and lenPos is where the last one starts. */
    ghost predicate Valid()
      reads this, buffer
    {
      && writePos <= size <= buffer.Length
      && buffer[..writePos] == Encode(records)
      && (writePos == 0 <==> records == [])
      && (records != [] ==> lenPos == |Encode(records[..|records| - 1])|)
    }

    method AddTag(tag: uint8)
      requires Valid() && writePos + 2 < size
      modifies this, buffer
      ensures Valid() && records == old(records) + [Record(tag, [])]
      ensures writePos == old(writePos) + 2 && buffer[old(writePos)] == 1 && buffer[old(writePos) + 1] == tag
    {
      ghost var r := Record(tag, []);
      EncodeAppend(records, [r]);
      EncodeSingle(r);
      lenPos := writePos;
      buffer[writePos] := 1;
      writePos := writePos + 1;
      buffer[writePos] := tag;
      writePos := writePos + 1;
      assert buffer[..writePos] == old(buffer[..writePos]) + [1, tag];
      records := records + [r];
      assert records[..|records| - 1] == old(records);
    }

    method IncreaseTag(n: uint16)
      requires writePos + n < size <= buffer.Length && lenPos < writePos && buffer[lenPos] + n <= 0xff
      modifies this`writePos, buffer
      ensures writePos == old(writePos) + n
      ensures buffer[..] == old(buffer[..])[lenPos := old(buffer[lenPos]) + n]
    {
      writePos := writePos + n;
      buffer[lenPos] := buffer[lenPos] + n;
    }

    /** The record in progress, as far as the buffer is concerned. */
    lemma LastRecord()
      requires Valid() && writePos != 0
      ensures lenPos < writePos && buffer[lenPos] == 1 + |records[|records| - 1].payload|
    {
      GrownEncoded(records, []);
    }

    /** The fixed-width adders: the n low bytes of value, n from 1 to 4, go to the end of the last record. */
    method AddLittleEndian(value: uint32, n: uint16)
      requires Valid() && writePos != 0 && 1 <= n <= 4
      requires writePos + n < size && |records[|records| - 1].payload| + n < 0xff
      modifies this, buffer
      ensures Valid() && records == Grown(old(records), LeBytes(value, n)) && writePos == old(writePos) + n
      ensures buffer[old(writePos)..writePos] == LeBytes(value, n)
    {
      var at := writePos;
      LastRecord();
      IncreaseTag(n);
      StoreLittleEndian(buffer, at, value, n);
      hide Encode, LeBytes, EncodeOne, Grown;
      Rewritten(records, old(buffer[..]), at, lenPos, LeBytes(value, n));
      records := Grown(records, LeBytes(value, n));
    }

    /** Advances the write position twice: n bytes of whatever was in the buffer join the last record,
        and the data follow it. */
    method AddBytes(data: Bytes)
      requires Valid() && writePos != 0 && |data| < 0x1_0000
      requires writePos + |data| < size && |records[|records| - 1].payload| + |data| < 0xff
      requires writePos + 2 * |data| <= buffer.Length && writePos + 2 * |data| < 0x1_0000
      modifies this`writePos, buffer
      ensures writePos == old(writePos) + 2 * |data|
      ensures buffer[..writePos] == Encode(Grown(records, old(buffer[writePos..writePos + |data|]))) + data
    {
      IncludeOldBytes(|data|);
      Copy(buffer, writePos, data);
      writePos := writePos + |data|;
    }

    method IncludeOldBytes(n: uint16)
      requires Valid() && writePos != 0
      requires writePos + n < size && |records[|records| - 1].payload| + n < 0xff
      modifies this`writePos, buffer
      ensures writePos == old(writePos) + n
      ensures buffer[..writePos] == Encode(Grown(records, old(buffer[writePos..writePos + n])))
    {
      hide Encode, EncodeOne, Grown;
      LastRecord();
      ghost var all, at := buffer[..], writePos;
      Rewritten(records, all, at, lenPos, all[at..at + n]);
      IncreaseTag(n);
    }
  }

  /** A new length byte, and d behind the old end: the encoding of the grown records. */
  lemma Rewritten(rs: seq<Record>, all: Bytes, at: nat, i: nat, d: Bytes)
    requires rs != [] && |rs[|rs| - 1].payload| + |d| < 0xff && at + |d| <= |all|
    requires all[..at] == Encode(rs) && i == |Encode(rs[..|rs| - 1])|
    ensures var n := |rs[|rs| - 1].payload| + |d| + 1;
            && i < at && all[i] + |d| == n
            && all[i := n][..at] + d == Encode(Grown(rs, d))
            && (d == all[at..at + |d|] ==> all[i := n][..at + |d|] == Encode(Grown(rs, d)))
  {
    GrownEncoded(rs, d);
    hide Encode, EncodeOne, Grown;
    assert all[i] == all[..at][i];
  }

  method Copy(buffer: array<uint8>, at: nat, data: Bytes)
    requires at + |data| <= buffer.Length
    modifies buffer
    ensures buffer[..at + |data|] == old(buffer[..at]) + data
  {
    for i := 0 to |data|
      invariant buffer[..at + i] == old(buffer[..at]) + data[..i]
    {
      buffer[at + i] := data[i];
    }
  }

  method StoreLittleEndian(buffer: array<uint8>, at: nat, value: uint32, n: nat)
    requires at + n <= buffer.Length
    modifies buffer
    ensures buffer[..at + n] == old(buffer[..at]) + LeBytes(value, n) && buffer[at + n..] == old(buffer[at + n..])
  {
    var i, v: nat := 0, value;
    while i < n
      invariant 0 <= i <= n
      invariant buffer[..at] == old(buffer[..at]) && buffer[at + n..] == old(buffer[at + n..])
      invariant buffer[at..at + i] + LeBytes(v, n - i) == LeBytes(value, n)
    {
      ghost var done := buffer[at..at + i];
      buffer[at + i] := v % 0x100;
      assert buffer[at..at + i + 1] == done + [v % 0x100];
      v := v / 0x100;
      i := i + 1;
    }
    assert buffer[at..at + n] + [] == buffer[at..at + n];
    assert buffer[..at + n] == buffer[..at] + buffer[at..at + n];
  }

  /** What add_bytes builds is the record with the data at its end only if there are no data. */
  lemma AddBytesIff(rs: seq<Record>, gap: Bytes, data: Bytes)
    requires rs != [] && |gap| == |data| && |rs[|rs| - 1].payload| + |data| < 0xff
    ensures Encode(Grown(rs, gap)) + data == Encode(Grown(rs, data)) <==> data == []
  {
    GrownEncoded(rs, gap);
    GrownEncoded(rs, data);
  }

  /** What an iterator makes of it: the record comes out right only if the old bytes happened to be the
      data, and nothing follows only if the data do not look like a record. */
  lemma AddBytesReadBack(rs: seq<Record>, gap: Bytes, data: Bytes)
    requires rs != [] && |gap| == |data| && |rs[|rs| - 1].payload| + |data| < 0xff
    ensures Decode(Encode(Grown(rs, gap)) + data) == Grown(rs, gap) + Decode(data)
    ensures Decode(Encode(Grown(rs, gap)) + data) == Grown(rs, data) <==> gap == data && Decode(data) == []
  {
    DecodeEncode(Grown(rs, gap), data);
    hide Decode, Encode;
    var p, n := rs[|rs| - 1].payload, |rs|;
    assert Grown(rs, gap)[n - 1].payload == p + gap && Grown(rs, data)[n - 1].payload == p + data;
    assert (p + gap)[|p|..] == gap && (p + data)[|p|..] == data;
    assert Decode(data) == [] ==> Grown(rs, gap) + Decode(data) == Grown(rs, gap);
  }
}
