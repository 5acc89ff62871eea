/** Two descriptors that make the iterator hand out a field on top of what follows: a usage range that is
    wider than its main item, and one that is upside down. */
module HidWideRange {
  import opened Widths
  import opened Wrappers
  import opened HidItems
  import opened HidUsage
  import opened HidPlaces
  import opened HidLayout
  import opened HidInPlace

  /** One input item of two one-bit fields, with one range of usages. */
  datatype Positions = Positions(count: uint16, minimum: uint16, maximum: uint16, input: uint16, end: uint16)

  predicate OneRange(d: seq<uint8>, p: Positions, min: Item, max: Item) {
    && 0 < p.count < p.minimum < p.maximum < p.input < p.end == |d|
    && Parse(d) == Some(Item(Global, REPORT_SIZE, 1, 1, p.count))
    && Parse(d[p.count..]) == Some(Item(Global, REPORT_COUNT, 2, 1, p.minimum - p.count))
    && Parse(d[p.minimum..]) == Some(min) && min.size == p.maximum - p.minimum
    && Parse(d[p.maximum..]) == Some(max) && max.size == p.input - p.maximum
    && Parse(d[p.input..]) == Some(Item(HidItems.Main, INPUT, 2, 1, p.end - p.input))
    && min.typ == Local && min.tag == USAGE_MINIMUM && max.typ == Local && max.tag == USAGE_MAXIMUM
  }

  function Unset(): Search { Search(0, 0, 0, false, false, 0, false) }

  /** The range the search finds. */
  function RangeOf(min: Item, max: Item): Cursor {
    var a, b := UsageValue(0, min), UsageValue(0, max);
    var n := ToUint16(b - a + 1);
    Cursor(0, a, b, n, 2, n > 0)
  }

  lemma FindsRange(d: seq<uint8>, p: Positions, min: Item, max: Item)
    requires OneRange(d, p, min, max) && RangeOf(min, max).available > 0
    ensures Searched(d, Cursor(0, 0, 0, 0, 2, false), 0, 0) == (RangeOf(min, max), p.input, 0)
  {
    hide Parse;
    assert d[0..] == d;
    var s := Unset();
    var a := Look(s, min);
    assert Find(d, s, 0) == Find(d, s, p.count) == Find(d, s, p.minimum) == Find(d, a, p.maximum);
    assert Find(d, a, p.maximum) == Find(d, Look(a, max), p.input) == (Look(a, max), p.input);
  }

  function InputGlobals(): Globals { Globals(0, 0, 1, 2, UNDEFINED, 0) }

  lemma ReadsInput(d: seq<uint8>, p: Positions, min: Item, max: Item)
    requires OneRange(d, p, min, max)
    ensures var q, g := Quest(0, 0, 0, 0), InputGlobals();
            PlacesOf(d, Input) == PlacesFrom(d, Input, 4, p.input, q, g)
    ensures Due(Input, Item(HidItems.Main, INPUT, 2, 1, p.end - p.input), InputGlobals())
  {
    hide Parse, Hand;
    assert d[0..] == d;
    var q, g := Quest(0, 0, 0, 0), Fold(Input, []);
    PlacesStep(d, Input, 0, 0, q, g, Item(Global, REPORT_SIZE, 1, 1, p.count));
    PlacesStep(d, Input, 1, p.count, q, g.(size := 1), Item(Global, REPORT_COUNT, 2, 1, p.minimum - p.count));
    PlacesStep(d, Input, 2, p.minimum, q, InputGlobals(), min);
    PlacesStep(d, Input, 3, p.maximum, q, InputGlobals(), max);
  }

  function Items(p: Positions, min: Item, max: Item): seq<Item>
    requires 0 < p.count < p.minimum < p.maximum < p.input < p.end
  {
    [Item(Global, REPORT_SIZE, 1, 1, p.count), Item(Global, REPORT_COUNT, 2, 1, p.minimum - p.count), min, max,
     Item(HidItems.Main, INPUT, 2, 1, p.end - p.input)]
  }

  lemma ItemsAre(d: seq<uint8>, p: Positions, min: Item, max: Item)
    requires OneRange(d, p, min, max)
    ensures ItemsOf(d) == Items(p, min, max)
  {
    hide ItemsOf, Parse;
    var items := Items(p, min, max);
    ItemsEnd(d[p.end..]);
    ItemsFrom(d, p.input, items[4]);
    ItemsFrom(d, p.maximum, max);
    ItemsFrom(d, p.minimum, min);
    ItemsFrom(d, p.count, items[1]);
    assert d[0..] == d;
    ItemsFrom(d, 0, items[0]);
  }

  lemma ItemsEnd(d: seq<uint8>)
    requires d == []
    ensures ItemsOf(d) == []
  {
  }

  lemma ItemsFrom(d: seq<uint8>, pos: nat, item: Item)
    requires pos <= |d| && Parse(d[pos..]) == Some(item)
    ensures pos + item.size <= |d| && ItemsOf(d[pos..]) == [item] + ItemsOf(d[pos + item.size..])
  {
    hide Parse;
    assert d[pos..][item.size..] == d[pos + item.size..];
  }

  lemma ShortFields(p: Positions, min: Item, max: Item, k: nat)
    requires 0 < p.count < p.minimum < p.maximum < p.input < p.end && min.typ == Local && max.typ == Local && k <= 5
    ensures var g := Fold(Input, Items(p, min, max)[..k]); g.bits <= 2 && (k > 0 ==> g.size == 1)
    decreases k
  {
    if k > 0 {
      ShortFields(p, min, max, k - 1);
      var items := Items(p, min, max);
      PrefixStep(items, k - 1);
      FoldAppend(Input, items[..k - 1], items[k - 1]);
      FoldGlobals(p, min, max, k - 1);
    }
  }

  lemma FoldGlobals(p: Positions, min: Item, max: Item, k: nat)
    requires 0 < p.count < p.minimum < p.maximum < p.input < p.end && min.typ == Local && max.typ == Local && k <= 4
    ensures Fold(Input, Items(p, min, max)[..k])
         == Globals(0, 0, if k > 0 then 1 else 0, if k > 1 then 2 else 0, UNDEFINED, 0)
    decreases k
  {
    if k > 0 {
      FoldGlobals(p, min, max, k - 1);
      var items := Items(p, min, max);
      PrefixStep(items, k - 1);
      FoldAppend(Input, items[..k - 1], items[k - 1]);
    }
  }

  lemma InputStarts(item: Item)
    requires item.value == 2
    ensures StartOf(InputGlobals(), Quest(0, 0, 0, 0)) == Cursor(0, 0, 0, 0, 2, false) && Variable(item)
  {
  }

  lemma SomeFieldNotDue(d: seq<uint8>, p: Positions, min: Item, max: Item)
    requires OneRange(d, p, min, max) && RangeOf(min, max).available > 0 && !Fits(RangeOf(min, max))
    ensures !AllDue(PlacesOf(d, Input))
  {
    var g, q, item := InputGlobals(), Quest(0, 0, 0, 0), Item(HidItems.Main, INPUT, 2, 1, p.end - p.input);
    var c, h := Cursor(0, 0, 0, 0, 2, false), After(Input, g, item);
    hide Hand, PlacesFrom, PlacesOf, AllDue, Parse, Find, Fits, After, Searched, Variable, StartOf, Due,
      Found, RangeOf, OneRange;
    ReadsInput(d, p, min, max);
    InputStarts(item);
    PlacesStep(d, Input, 4, p.input, q, g, item);
    RangeNotDue(d, p, min, max, h);
    var r := Hand(d, 5, c, 0, 0, true, h);
    if r.1.Served? {
      AllDueConcat(r.0, PlacesFrom(d, Input, 5, p.end, r.1.next, h));
    }
  }

  lemma RangeNotDue(d: seq<uint8>, p: Positions, min: Item, max: Item, h: Globals)
    requires OneRange(d, p, min, max) && RangeOf(min, max).available > 0 && !Fits(RangeOf(min, max))
    ensures !AllDue(Hand(d, 5, Cursor(0, 0, 0, 0, 2, false), 0, 0, true, h).0)
  {
    FindsRange(d, p, min, max);
    HandSearch(d, 5, Cursor(0, 0, 0, 0, 2, false), 0, 0, true, h);
    hide Hand, AllDue, Parse, Find, Fits, Searched;
    Misfit(d, 5, RangeOf(min, max), p.input, 0, h);
  }

  /** A range that does not fit makes the iterator hand out a field that lies outside its main item. */
  lemma RangeOverruns(d: seq<uint8>, p: Positions, min: Item, max: Item) returns (place: Place)
    requires OneRange(d, p, min, max) && RangeOf(min, max).available > 0 && !Fits(RangeOf(min, max))
    ensures place in PlacesOf(d, Input) && place.left == 0 && !Inside(Input, ItemsOf(d), place)
  {
    var items := Items(p, min, max);
    SomeFieldNotDue(d, p, min, max);
    ItemsAre(d, p, min, max);
    AtStart(d, Input);
    PlacesAligned(d, Input, 0, 0, Quest(0, 0, 0, 0), Fold(Input, []), items);
    var places := PlacesOf(d, Input);
    hide PlacesOf, PlacesFrom, AllDue, Parse, Fits, RangeOf, OneRange, Reached, Inside, Fold, Items, ItemsOf;
    var i := SomeNotDue(places);
    place := places[i];
    forall k | 0 <= k <= 5 ensures Fold(Input, items[..k]).bits < 0x1_0000 {
      ShortFields(p, min, max, k);
    }
    ShortFields(p, min, max, place.at);
    NotDueOutside(Input, items, place);
  }

  // ----- The two descriptors, byte by byte

  lemma Parsed(d: seq<uint8>, pos: nat, typ: Type, tag: int, data: seq<uint8>)
    requires 0 <= tag < 15 && |data| in [1, 4] && pos + 1 + |data| <= |d|
    requires d[pos] == tag * 16 + TypeCode(typ) * 4 + (if |data| == 4 then 3 else 1)
    requires d[pos + 1..pos + 1 + |data|] == data
    ensures Parse(d[pos..]) == Some(Item(typ, tag, ItemValue(typ, tag, data), |data|, 1 + |data|))
  {
    var rest := d[pos + 1 + |data|..];
    ParseShort(typ, tag, data, rest);
    hide Parse, ItemValue;
    assert d[pos..] == [d[pos]] + d[pos + 1..pos + 1 + |data|] + rest;
  }

  lemma SmallValue(typ: Type, tag: int, v: uint8)
    requires 0 <= tag < 15 && v < 0x80
    ensures ItemValue(typ, tag, [v]) == v
  {
    assert Le([v]) == v + 256 * Le([v][1..]);
  }

  lemma FourByteValue()
    ensures ItemValue(Local, USAGE_MINIMUM, [5, 0, 1, 0]) == 0x1_0005
  {
    var d: seq<uint8> := [5, 0, 1, 0];
    assert d[1..] == [0, 1, 0] && d[1..][1..] == [1, 0] && d[1..][1..][1..] == [0];
    assert Le([0]) == 0 && Le([1, 0]) == 1 && Le([0, 1, 0]) == 256 && Le(d) == 0x1_0005;
  }

  lemma ParsedByte(d: seq<uint8>, pos: nat, typ: Type, tag: int, v: uint8)
    requires 0 <= tag < 15 && v < 0x80 && pos + 2 <= |d|
    requires d[pos] == tag * 16 + TypeCode(typ) * 4 + 1 && d[pos + 1] == v
    ensures Parse(d[pos..]) == Some(Item(typ, tag, v, 1, 2))
  {
    hide Parse, ItemValue;
    assert d[pos + 1..pos + 2] == [v];
    Parsed(d, pos, typ, tag, [v]);
    SmallValue(typ, tag, v);
  }

  /** Report size 1, report count 2, usages 1 to 3. */
  function Wide(): (d: seq<uint8>)
    ensures |d| == 10
  {
    [0x75, 1, 0x95, 2, 0x19, 1, 0x29, 3, 0x81, 2]
  }

  lemma WideParts()
    ensures OneRange(Wide(), Positions(2, 4, 6, 8, 10), Item(Local, USAGE_MINIMUM, 1, 1, 2),
                     Item(Local, USAGE_MAXIMUM, 3, 1, 2))
  {
    hide Parse;
    var d := Wide();
    assert d[0..] == d;
    ParsedByte(d, 0, Global, REPORT_SIZE, 1);
    ParsedByte(d, 2, Global, REPORT_COUNT, 2);
    ParsedByte(d, 4, Local, USAGE_MINIMUM, 1);
    ParsedByte(d, 6, Local, USAGE_MAXIMUM, 3);
    ParsedByte(d, 8, HidItems.Main, INPUT, 2);
  }

  lemma WiderThanCount() returns (place: Place)
    ensures place in PlacesOf(Wide(), Input) && place.left == 0 && !Inside(Input, ItemsOf(Wide()), place)
  {
    hide Parse, OneRange, Wide, PlacesOf, ItemsOf, Inside;
    WideParts();
    var min, max := Item(Local, USAGE_MINIMUM, 1, 1, 2), Item(Local, USAGE_MAXIMUM, 3, 1, 2);
    place := RangeOverruns(Wide(), Positions(2, 4, 6, 8, 10), min, max);
  }

  /** Report size 1, report count 2, usages 0x10005 to 6: upside down, with two usages in 16 bits. */
  function Reversed(): (d: seq<uint8>)
    ensures |d| == 13
  {
    [0x75, 1, 0x95, 2, 0x1b, 5, 0, 1, 0, 0x29, 6, 0x81, 2]
  }

  lemma ReversedParts()
    ensures OneRange(Reversed(), Positions(2, 4, 9, 11, 13), Item(Local, USAGE_MINIMUM, 0x1_0005, 4, 5),
                     Item(Local, USAGE_MAXIMUM, 6, 1, 2))
  {
    hide Parse, ItemValue;
    var d := Reversed();
    assert d[0..] == d;
    ParsedByte(d, 0, Global, REPORT_SIZE, 1);
    ParsedByte(d, 2, Global, REPORT_COUNT, 2);
    assert d[5..9] == [5, 0, 1, 0];
    Parsed(d, 4, Local, USAGE_MINIMUM, [5, 0, 1, 0]);
    FourByteValue();
    ParsedByte(d, 9, Local, USAGE_MAXIMUM, 6);
    ParsedByte(d, 11, HidItems.Main, INPUT, 2);
  }

  lemma UpsideDown() returns (place: Place)
    ensures place in PlacesOf(Reversed(), Input) && place.left == 0 && !Inside(Input, ItemsOf(Reversed()), place)
  {
    hide Parse, OneRange, Reversed, PlacesOf, ItemsOf, Inside;
    ReversedParts();
    var min, max := Item(Local, USAGE_MINIMUM, 0x1_0005, 4, 5), Item(Local, USAGE_MAXIMUM, 6, 1, 2);
    place := RangeOverruns(Reversed(), Positions(2, 4, 9, 11, 13), min, max);
  }
}
