/** The byte-wise base64 decoder and its agreement with the encoder. */
module Base64Decoder {
  import opened Base64Bits
  import opened Base64Encoder

  /** AssertFailed stands for the failing assert a character after the padding runs into. */
  datatype Result = More | Invalid | AssertFailed | Value(v: bv16)

  /** Position in the group of four (99 once invalid) and the previous 6-bit value. */
  datatype Context = Context(pos: int, value: bv8)

  function Step(c: Context, b: bv8): (Context, Result) {
    if b == PAD && (c.pos == 2 || c.pos == 3) then (c.(pos := c.pos + 1), More)
    else
      var v := Lookup(b);
      if v == 99 || c.pos == 99 then (c.(pos := 99), Invalid)
      else if c.pos == 0 then (Context(1, v), More)
      else if c.pos == 1 then (Context(2, v), Value(Combine(c.value, 2, v, 4)))
      else if c.pos == 2 then (Context(3, v), Value(Combine(c.value, 4, v, 2)))
      else if c.pos == 3 then (Context(0, c.value), Value(Combine(c.value, 6, v, 0)))
      else (c, AssertFailed)
  }

  class Decoder {
    var pos: int
    var value: bv8

    constructor Init()
      ensures Now() == Context(0, 0)
    {
      pos, value := 0, 0;
    }

    ghost function Now(): Context
      reads this
    {
      Context(pos, value)
    }

    method ProcessByte(c: bv8) returns (result: Result)
      modifies this
      ensures (Now(), result) == Step(old(Now()), c)
    {
      if c == PAD {
        if pos == 2 || pos == 3 {
          pos := pos + 1;
          return More;
        }
      }
      var v := Lookup(c);
      if v == 99 {
        pos := 99;
      }
      if pos == 0 {
        value := v;
        pos := pos + 1;
        result := More;
      } else if pos == 1 {
        result := Value(Combine(value, 2, v, 4));
        value := v;
        pos := pos + 1;
      } else if pos == 2 {
        result := Value(Combine(value, 4, v, 2));
        value := v;
        pos := pos + 1;
      } else if pos == 3 {
        result := Value(Combine(value, 6, v, 0));
        pos := 0;
      } else if pos == 99 {
        result := Invalid;
      } else {
        result := AssertFailed;
      }
    }
  }

  datatype Outcome = Decoded(data: Bytes) | Malformed | Full | Aborted

  /** Decoding s from context c, with room for `room` more bytes. */
  function Decode(c: Context, s: Bytes, room: nat): Outcome
    decreases |s|
  {
    if s == [] then Decoded([])
    else
      var (d, r) := Step(c, s[0]);
      match r
      case More => Decode(d, s[1..], room)
      case Invalid => Malformed
      case AssertFailed => Aborted
      case Value(v) =>
        if room == 0 then Full
        else match Decode(d, s[1..], room - 1)
             case Decoded(rest) => Decoded([LowByte(v)] + rest)
             case other => other
  }

  function Prepend(d: Bytes, o: Outcome): Outcome {
    match o case Decoded(rest) => Decoded(d + rest) case other => other
  }

  lemma PrependTwice(d: Bytes, v: bv8, o: Outcome)
    ensures Prepend(d + [v], o) == Prepend(d, Prepend([v], o))
  {
    if o.Decoded? {
      assert d + [v] + o.data == d + ([v] + o.data);
    }
  }

  lemma PrependFirst(a: bv8, b: bv8, c: bv8, o: Outcome)
    ensures Prepend([a, b, c], o) == Prepend([a], Prepend([b, c], o))
  {
    if o.Decoded? {
      assert [a, b, c] + o.data == [a] + ([b, c] + o.data);
    }
  }

  const INVALID := -3
  const FULL := -4

  /** Decodes input into the buffer; the size, or a negative error code. */
  method ProcessBlock(input: Bytes, output: array<bv8>, maxSize: nat) returns (result: int)
    requires maxSize <= output.Length
    requires !Decode(Context(0, 0), input, maxSize).Aborted?
    modifies output
    ensures match Decode(Context(0, 0), input, maxSize)
            case Decoded(d) => result == |d| && Written(old(output[..]), output[..], 0, d)
            case Malformed => result == -3
            case Full => result == -4
            case Aborted => true
  {
    hide LowByte, Written, Decode, Step;
    var context := new Decoder.Init();
    var size, i := 0, 0;
    ghost var base, d: Bytes, whole := output[..], [], Decode(Context(0, 0), input, maxSize);
    StartWriting(base);
    assert input[0..] == input && Prepend([], whole) == whole;
    while i < |input|
      invariant 0 <= i <= |input| && fresh(context) && size == |d| <= maxSize
      invariant whole == Prepend(d, Decode(context.Now(), input[i..], maxSize - size))
      invariant Written(base, output[..], 0, d)
    {
      ghost var c := context.Now();
      var r := context.ProcessByte(input[i]);
      DecodeHead(c, input, i, maxSize - size);
      i := i + 1;
      match r {
        case More =>
        case Invalid => return INVALID;
        case AssertFailed => assert false;
        case Value(v) =>
          if size >= maxSize {
            return FULL;
          }
          PrependTwice(d, LowByte(v), Decode(context.Now(), input[i..], maxSize - size - 1));
          Put(output, size, LowByte(v), base, 0, d);
          d := d + [LowByte(v)];
          size := size + 1;
      }
    }
    DecodeEnd(context.Now(), maxSize - size);
    assert input[i..] == [] && Prepend(d, Decoded([])) == Decoded(d);
    result := size;
  }

  /** A character that is neither in the alphabet nor padding is not accepted anywhere, and padding only behind two
      or three characters of a group of four. */
  lemma {:induction false} DecodeRejects(c: Context, s: Bytes, b: bv8, rest: Bytes, room: nat)
    requires forall i: bv8 :: i < 64 ==> Char(i) != b
    requires Decode(c, s, room).Decoded? && (b != 61 || PositionAfter(c, s) !in [2, 3])
    ensures Decode(c, s + [b] + rest, room) == Malformed
    decreases |s|
  {
    hide Char, LowByte, Combine;
    if s == [] {
      assert [b] + rest == s + [b] + rest && ([b] + rest)[0] == b;
      NotInAlphabet(b);
    } else {
      var whole := s + [b] + rest;
      assert whole[0] == s[0] && whole[1..] == s[1..] + [b] + rest;
      var (d, r) := Step(c, s[0]);
      DecodeRejects(d, s[1..], b, rest, if r.Value? then room - 1 else room);
    }
  }

  function PositionAfter(c: Context, s: Bytes): int
    decreases |s|
  {
    if s == [] then c.pos else PositionAfter(Step(c, s[0]).0, s[1..])
  }

  lemma NotInAlphabet(b: bv8)
    requires forall i: bv8 :: i < 64 ==> Char(i) != b
    ensures Lookup(b) == 99
  {
    if Lookup(b) != 99 {
      LookupIs(b, 0);
      LookupIs(b, Lookup(b));
    }
  }

  lemma DecodeEnd(c: Context, room: nat)
    ensures Decode(c, [], room) == Decoded([])
  {
  }

  lemma StepPad(c: Context)
    requires c.pos == 2 || c.pos == 3
    ensures Step(c, PAD) == (c.(pos := c.pos + 1), More)
  {
  }

  lemma StartWriting(s: Bytes)
    ensures Written(s, s, 0, [])
  {
  }

  /** Decode seen one character at a time. */
  lemma DecodeHead(c: Context, s: Bytes, i: nat, room: nat)
    requires i < |s|
    ensures var (d, r) := Step(c, s[i]);
            Decode(c, s[i..], room) == match r
              case More => Decode(d, s[i + 1..], room)
              case Invalid => Malformed
              case AssertFailed => Aborted
              case Value(v) => if room == 0 then Full else Prepend([LowByte(v)], Decode(d, s[i + 1..], room - 1))
  {
    hide LowByte, Step;
    assert s[i..][1..] == s[i + 1..];
  }

  // ----- Decoding an encoding

  lemma StepChar(c: Context, i: bv8)
    requires i < 64 && 0 <= c.pos <= 3
    ensures Step(c, Char(i)) ==
              if c.pos == 0 then (Context(1, i), More)
              else if c.pos == 1 then (Context(2, i), Value(Combine(c.value, 2, i, 4)))
              else if c.pos == 2 then (Context(3, i), Value(Combine(c.value, 4, i, 2)))
              else (Context(0, c.value), Value(Combine(c.value, 6, i, 0)))
  {
    hide Combine;
    LookupChar(i);
  }

  /** The second half of a group: two bytes from its last two characters. */
  lemma DecodeHalf(s: Bytes, a: bv8, b: bv8, c: bv8, room: nat)
    requires |s| >= 4 && s[2] == Char(Third(b, c)) && s[3] == Char(Fourth(c))
    ensures Decode(Context(2, Second(a, b)), s[2..], room) ==
              if room < 2 then Full
              else Prepend([b, c], Decode(Context(0, Third(b, c)), s[4..], room - 2))
  {
    hide Char, First, Second, Third, Fourth, LowByte, Combine, Step, Decode;
    SixBits(a, b, c);
    Combined(a, b, c);
    StepChar(Context(2, Second(a, b)), Third(b, c));
    StepChar(Context(3, Third(b, c)), Fourth(c));
    DecodeHead(Context(2, Second(a, b)), s, 2, room);
    if room >= 1 {
      DecodeHead(Context(3, Third(b, c)), s, 3, room - 1);
    }
    if room >= 2 {
      PrependTwice([b], c, Decode(Context(0, Third(b, c)), s[4..], room - 2));
    }
  }

  /** Four characters give back the three bytes they came from. */
  lemma DecodeQuad(v: bv8, a: bv8, b: bv8, c: bv8, rest: Bytes, room: nat)
    ensures Decode(Context(0, v), Quad(a, b, c) + rest, room) ==
              if room < 3 then Full
              else Prepend([a, b, c], Decode(Context(0, Third(b, c)), rest, room - 3))
  {
    hide Char, First, Second, Third, Fourth, LowByte, Combine, Step, Decode;
    var s := Quad(a, b, c) + rest;
    assert s[0..] == s && s[4..] == rest;
    SixBits(a, b, c);
    Combined(a, b, c);
    StepChar(Context(0, v), First(a));
    StepChar(Context(1, First(a)), Second(a, b));
    DecodeHead(Context(0, v), s, 0, room);
    DecodeHead(Context(1, First(a)), s, 1, room);
    if room >= 1 {
      DecodeHalf(s, a, b, c, room - 1);
    }
    if room >= 3 {
      PrependFirst(a, b, c, Decode(Context(0, Third(b, c)), rest, room - 3));
    }
  }

  lemma DecodeOne(v: bv8, a: bv8, room: nat)
    ensures Decode(Context(0, v), [Char(First(a)), Char(Second(a, 0)), PAD, PAD], room)
         == if room < 1 then Full else Decoded([a])
  {
    hide Char, First, Second, Third, LowByte, Combine, Lookup;
    var s := [Char(First(a)), Char(Second(a, 0)), PAD, PAD];
    SixBits(a, 0, 0);
    Combined(a, 0, 0);
    StepChar(Context(0, v), First(a));
    StepChar(Context(1, First(a)), Second(a, 0));
    assert s[0..] == s;
    DecodeHead(Context(0, v), s, 0, room);
    DecodeHead(Context(1, First(a)), s, 1, room);
    if room >= 1 {
      DecodeHead(Context(2, Second(a, 0)), s, 2, room - 1);
      DecodeHead(Context(3, Second(a, 0)), s, 3, room - 1);
    }
  }

  lemma DecodeTwo(v: bv8, a: bv8, b: bv8, room: nat)
    ensures Decode(Context(0, v), [Char(First(a)), Char(Second(a, b)), Char(Third(b, 0)), PAD], room)
         == if room < 2 then Full else Decoded([a, b])
  {
    hide Char, First, Second, Third, LowByte, Combine, Lookup, Step, Decode;
    var s := [Char(First(a)), Char(Second(a, b)), Char(Third(b, 0)), PAD];
    StepPad(Context(3, Third(b, 0)));
    DecodeEnd(Context(4, Third(b, 0)), room - if room < 2 then room else 2);
    assert s[4..] == [];
    SixBits(a, b, 0);
    Combined(a, b, 0);
    StepChar(Context(0, v), First(a));
    StepChar(Context(1, First(a)), Second(a, b));
    StepChar(Context(2, Second(a, b)), Third(b, 0));
    assert s[0..] == s;
    DecodeHead(Context(0, v), s, 0, room);
    DecodeHead(Context(1, First(a)), s, 1, room);
    if room >= 1 {
      DecodeHead(Context(2, Second(a, b)), s, 2, room - 1);
    }
    if room >= 2 {
      DecodeHead(Context(3, Third(b, 0)), s, 3, room - 2);
    }
  }

  /** Decoding an encoding returns the original bytes, or reports that they do not fit. */
  lemma {:induction false} DecodeEncode(v: bv8, m: Bytes, room: nat)
    ensures Decode(Context(0, v), Encode(m), room) == if room < |m| then Full else Decoded(m)
    decreases |m|
  {
    hide Quad, Char, First, Second, Third;
    if |m| == 1 {
      assert m == [m[0]];
      DecodeOne(v, m[0], room);
    } else if |m| == 2 {
      assert m == [m[0], m[1]];
      DecodeTwo(v, m[0], m[1], room);
    } else if |m| >= 3 {
      DecodeQuad(v, m[0], m[1], m[2], Encode(m[3..]), room);
      if room >= 3 {
        DecodeEncode(Third(m[1], m[2]), m[3..], room - 3);
      }
      assert [m[0], m[1], m[2]] + m[3..] == m;
    }
  }
}
