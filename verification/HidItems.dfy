/** Items of a HID report descriptor (section 6.2.2.2 and 6.2.2.3 of USB HID 1.11)
    and the iterator that walks over them. */
module HidItems {
  import opened Widths
  import opened Wrappers

  datatype Type = Main | Global | Local | Reserved

  /** size counts header and data. */
  datatype Item = Item(typ: Type, tag: uint8, value: int32, dataSize: uint8, size: uint16)

  const INPUT := 8
  const OUTPUT := 9
  const FEATURE := 11
  const USAGE_PAGE := 0
  const LOGICAL_MINIMUM := 1
  const REPORT_SIZE := 7
  const REPORT_ID := 8
  const REPORT_COUNT := 9
  const USAGE := 0
  const USAGE_MINIMUM := 1
  const USAGE_MAXIMUM := 2

  function TypeOf(code: int): Type {
    if code == 0 then Main else if code == 1 then Global else if code == 2 then Local else Reserved
  }

  /** Little-endian value of a byte string. */
  function Le(d: seq<uint8>): nat {
    if d == [] then 0 else d[0] + 256 * Le(d[1..])
  }

  function Pow256(n: nat): nat {
    if n == 0 then 1 else 256 * Pow256(n - 1)
  }

  lemma {:induction false} LeAppend(d: seq<uint8>, b: uint8)
    ensures Le(d + [b]) == Le(d) + b * Pow256(|d|)
  {
    if d == [] {
      assert (d + [b])[1..] == [];
    } else {
      assert (d + [b])[1..] == d[1..] + [b];
      LeAppend(d[1..], b);
      var p := Pow256(|d| - 1);
      assert 256 * (b * p) == b * (256 * p);
    }
  }

  /** Value of an item's data; Global tags 1 to 4 are signed. */
  function ItemValue(typ: Type, tag: uint8, data: seq<uint8>): int32 {
    if Signed(typ, tag) && data != [] && data[|data| - 1] >= 0x80
    then ToInt32(Le(data) - Pow256(|data|))
    else ToInt32(Le(data))
  }

  predicate Signed(typ: Type, tag: uint8) { typ == Global && 0 < tag < 5 }

  function DataSize(code: int): uint8
    requires 0 <= code < 4
  {
    if code == 3 then 4 else code
  }

  /** The item at the front of d; None when it is cut short or carries more than four bytes. */
  function Parse(d: seq<uint8>): (r: Option<Item>)
    ensures r.Some? ==> 0 < r.value.size <= |d|
  {
    if |d| < 1 then None
    else
      var short, typ, tag := DataSize(d[0] % 4), TypeOf(d[0] / 4 % 4), d[0] / 16;
      var long := short == 2 && tag == 15 && typ == Reserved;
      if long && |d| < 3 then None
      else
        var pos, n, tag := if long then 3 else 1, if long then d[1] else short, if long then d[2] else tag;
        if |d| < pos + n || n > 4 then None
        else Some(Item(typ, tag, ItemValue(typ, tag, d[pos..pos + n]), n, pos + n))
  }

  function TypeCode(typ: Type): int {
    match typ case Main => 0 case Global => 1 case Local => 2 case Reserved => 3
  }

  /** The short item of the standard, followed by anything, is read back as written. */
  lemma ParseShort(typ: Type, tag: int, data: seq<uint8>, rest: seq<uint8>)
    requires 0 <= tag < 16 && |data| in [0, 1, 2, 4] && !(typ == Reserved && tag == 15)
    ensures var code := if |data| == 4 then 3 else |data|;
            Parse([tag * 16 + TypeCode(typ) * 4 + code] + data + rest)
            == Some(Item(typ, tag, ItemValue(typ, tag, data), |data|, 1 + |data|))
  {
    var code := if |data| == 4 then 3 else |data|;
    var h := tag * 16 + TypeCode(typ) * 4 + code;
    var d := [h] + data + rest;
    assert h / 16 == tag && h / 4 % 4 == TypeCode(typ) && h % 4 == code;
    assert d[1..1 + |data|] == data;
  }

  /** The long item of section 6.2.2.3 likewise, if it carries no more than four bytes. */
  lemma ParseLong(tag: uint8, data: seq<uint8>, rest: seq<uint8>)
    requires |data| < 0x100
    ensures Parse([0xfe, |data|, tag] + data + rest)
         == if |data| > 4 then None
            else Some(Item(Reserved, tag, ItemValue(Reserved, tag, data), |data|, 3 + |data|))
  {
    hide ItemValue;
    var d := [0xfe, |data|, tag] + data + rest;
    assert d[3..3 + |data|] == data;
  }

  /** What is not an item: nothing, or one that is cut short or too long. */
  lemma ParseNone(d: seq<uint8>)
    ensures Parse(d).None? <==>
      d == [] || if d[0] == 0xfe then |d| < 3 || d[1] > 4 || |d| < 3 + d[1]
                 else |d| < match d[0] % 4 case 0 => 1 case 1 => 2 case 2 => 3 case _ => 5
  {
    hide ItemValue;
    if d != [] {
      assert d[0] == 0xfe <==> d[0] % 4 == 2 && d[0] / 4 % 4 == 3 && d[0] / 16 == 15;
    }
  }

  /** The one number in range whose lowest bytes are the data: two's complement for Global tags 1 to 4, unsigned for
      all others, as far as 32 bits go. */
  lemma ItemValueIs(typ: Type, tag: uint8, data: seq<uint8>, v: int)
    requires |data| <= 4
    ensures v == ItemValue(typ, tag, data) <==>
      && (v == Le(data) || v == Le(data) - Pow256(|data|))
      && if |data| == 4 || (data != [] && typ == Global && tag in [1, 2, 3, 4])
         then 0 <= 2 * v + Pow256(|data|) && 2 * v < Pow256(|data|)
         else 0 <= v < Pow256(|data|)
  {
    hide Le, Pow256, ToInt32;
    LeTop(data);
    FourBytes(|data|);
    InRange(Le(data), Pow256(|data|), |data| == 4, v);
    if data != [] && Signed(typ, tag) {
      InRangeSigned(Le(data), Pow256(|data|), v);
    }
  }

  lemma FourBytes(n: nat)
    requires n <= 4
    ensures Pow256(n) in [1, 0x100, 0x1_0000, 0x100_0000, 0x1_0000_0000]
    ensures (Pow256(n) == 1 <==> n == 0) && (Pow256(n) == 0x1_0000_0000 <==> n == 4)
  {
    assert n < 4 || Pow256(n - 4) == 1;
    assert n < 3 || Pow256(n - 3) == if n == 3 then 1 else 0x100;
  }

  lemma InRange(le: nat, p: nat, full: bool, v: int)
    requires le < p && p in [1, 0x100, 0x1_0000, 0x100_0000, 0x1_0000_0000] && (full <==> p == 0x1_0000_0000)
    ensures v == ToInt32(le) <==>
      && (v == le || v == le - p)
      && if full then 0 <= 2 * v + p && 2 * v < p else 0 <= v < p
  {
  }

  lemma InRangeSigned(le: nat, p: nat, v: int)
    requires le < p && p in [0x100, 0x1_0000, 0x100_0000, 0x1_0000_0000]
    ensures v == ToInt32(if 2 * le >= p then le - p else le) <==>
      && (v == le || v == le - p)
      && 0 <= 2 * v + p && 2 * v < p
  {
  }

  /** The last byte decides which half of its range a number lies in. */
  lemma {:induction false} LeTop(data: seq<uint8>)
    ensures Le(data) < Pow256(|data|)
    ensures data != [] ==> (data[|data| - 1] >= 0x80 <==> 2 * Le(data) >= Pow256(|data|))
  {
    if |data| == 1 {
      assert data[1..] == [] && Pow256(1) == 256 * Pow256(0);
    } else if data != [] {
      LeTop(data[1..]);
      HalfPow(|data| - 1);
    }
  }

  lemma {:induction false} HalfPow(n: nat)
    requires n > 0
    ensures Pow256(n) % 2 == 0
  {
    if n > 1 {
      HalfPow(n - 1);
    }
  }

  /** All items up to the first one that cannot be parsed. */
  function ItemsOf(d: seq<uint8>): seq<Item>
    decreases |d|
  {
    match Parse(d)
    case None => []
    case Some(item) => [item] + ItemsOf(d[item.size..])
  }

  /** The items use up every byte. */
  predicate WellFormed(d: seq<uint8>)
    decreases |d|
  {
    match Parse(d)
    case None => d == []
    case Some(item) => WellFormed(d[item.size..])
  }

  function Span(items: seq<Item>): nat {
    if items == [] then 0 else items[0].size + Span(items[1..])
  }

  /** Behind its items there is nothing that parses, and nothing at all exactly if the descriptor is well formed. */
  lemma {:induction false} WellFormedIff(d: seq<uint8>)
    ensures Span(ItemsOf(d)) <= |d| && Parse(d[Span(ItemsOf(d))..]).None?
    ensures WellFormed(d) <==> Span(ItemsOf(d)) == |d|
    decreases |d|
  {
    assert d[0..] == d;
    if Parse(d).Some? {
      var n := Parse(d).value.size;
      WellFormedIff(d[n..]);
      assert ItemsOf(d)[1..] == ItemsOf(d[n..]);
      assert d[n..][Span(ItemsOf(d[n..]))..] == d[Span(ItemsOf(d))..];
    }
  }

  method ParseItem(d: seq<uint8>) returns (r: Option<Item>)
    ensures r == Parse(d)
  {
    if |d| < 1 { return None; }
    var pos := 1;
    var n: uint8, typ, tag: uint8 := DataSize(d[0] % 4), TypeOf(d[0] / 4 % 4), d[0] / 16;
    if n == 2 && tag == 15 && typ == Reserved {
      if |d| < 3 { return None; }
      n, tag, pos := d[1], d[2], 3;
    }
    var itemSize := pos + n;
    if |d| < itemSize { return None; }
    if n > 4 { return None; }
    var value := ReadValue(typ, tag, d[pos..itemSize]);
    return Some(Item(typ, tag, value, n, itemSize));
  }

  /** Bytes are or-ed into bits that are still zero, which is the addition below. */
  method ReadValue(typ: Type, tag: uint8, data: seq<uint8>) returns (value: int32)
    ensures value == ItemValue(typ, tag, data)
  {
    var sum: int, i: nat, weight: int, latest: int := 0, 0, 1, 0;
    while i < |data|
      invariant 0 <= i <= |data| && weight == Pow256(i) && sum == Le(data[..i])
      invariant latest == if i == 0 then 0 else data[i - 1]
    {
      latest := data[i];
      LeAppend(data[..i], latest);
      assert data[..i + 1] == data[..i] + [latest];
      sum := sum + latest * weight;
      weight := 256 * weight;
      i := i + 1;
    }
    assert data[..i] == data;
    if Signed(typ, tag) && latest >= 0x80 {
      sum := sum - weight;
    }
    value := ToInt32(sum);
  }

  /** Walks over a descriptor; `item` holds the parsed item while `ready`. */
  class ItemIterator {
    const d: seq<uint8>
    var pos: nat
    var ready: bool
    var valid: bool
    var item: Item

    constructor (d: seq<uint8>)
      ensures Valid() && this.d == d && pos == 0 && !ready && valid
    {
      this.d, pos, ready, valid := d, 0, false, true;
      item := Item(Main, 0, 0, 0, 0);
    }

    ghost predicate Valid()
      reads this
    {
      && pos <= |d|
      && (ready ==> Parse(d[pos..]) == Some(item))
      && (valid || (!ready && Parse(d[pos..]).None? && pos < |d|))
    }

    /** What is still to come. */
    ghost function Ahead(): seq<Item>
      requires Valid()
      reads this
    {
      ItemsOf(d[pos..])
    }

    method HasMore() returns (more: bool)
      requires Valid()
      modifies this`ready, this`valid, this`item
      ensures Valid() && more == ready == (Ahead() != []) == Parse(d[pos..]).Some?
      ensures !more ==> (valid <==> pos == |d|)
    {
      if !ready && |d| > pos {
        var r := ParseItem(d[pos..]);
        match r {
          case Some(i) => item, ready := i, true;
          case None => valid := false;
        }
      }
      more := ready;
    }

    method GetItem() returns (r: Item)
      requires Valid() && ready
      modifies this`pos, this`ready
      ensures Valid() && !ready && valid
      ensures old(Ahead()) == [r] + Ahead() && old(Parse(d[pos..])) == Some(r)
      ensures pos == old(pos) + r.size && r.size > 0
      ensures WellFormed(d[pos..]) == old(WellFormed(d[pos..]))
    {
      r := item;
      assert d[pos + r.size..] == d[pos..][r.size..];
      pos := pos + r.size;
      ready := false;
    }
  }
}
