/** A descriptor byte by byte, and the fields it describes. */
module HidExample {
  import opened Widths
  import opened Wrappers
  import opened HidItems
  import opened HidUsage
  import opened HidPlaces

  /** Usage page 1, logical minimum -127, report size 8, report count 2, usages 0x30 and 0x31, an input item. */
  predicate AxesBytes(d: seq<uint8>) {
    && |d| == 38
    && d[0] == 0x05 && d[1] == 1 && d[2] == 0x15 && d[3] == 0x81 && d[4] == 0x75 && d[5] == 8
    && d[6] == 0x95 && d[7] == 2 && d[8] == 0x09 && d[9] == 0x30 && d[10] == 0x09 && d[11] == 0x31
    && d[12] == 0x81 && d[13] == 2
  }

  /** Usage page 7, report count 1, usage 0x33, a constant input item; logical minimum 0, report size 1, report count 2,
      usages 4 to 5, an input item; usage 6, an input item that is an array. */
  predicate KeysBytes(d: seq<uint8>) {
    && |d| == 38
    && d[14] == 0x05 && d[15] == 7 && d[16] == 0x95 && d[17] == 1 && d[18] == 0x09 && d[19] == 0x33
    && d[20] == 0x81 && d[21] == 3 && d[22] == 0x15 && d[23] == 0 && d[24] == 0x75 && d[25] == 1
    && d[26] == 0x95 && d[27] == 2 && d[28] == 0x19 && d[29] == 4 && d[30] == 0x29 && d[31] == 5
    && d[32] == 0x81 && d[33] == 2 && d[34] == 0x09 && d[35] == 6 && d[36] == 0x81 && d[37] == 0
  }

  /** The fields of the two axes, the two keys and the array; the constant item only takes its eight bits. */
  function Expected(): (u: seq<UsageItem>)
    ensures |u| == 6
  {
    [UsageItem(0xffff, 0, 1, 0x30, 8, true, -127), UsageItem(0xffff, 8, 1, 0x31, 8, true, -127),
     UsageItem(0xffff, 24, 7, 4, 1, true, 0), UsageItem(0xffff, 25, 7, 5, 1, true, 0),
     UsageItem(0xffff, 26, 7, 0, 1, false, 0), UsageItem(0xffff, 27, 7, 0, 1, false, 0)]
  }

  /** The two bytes at pos are an item with one byte of data. */
  predicate Has(d: seq<uint8>, pos: nat, typ: Type, tag: uint8, v: int32) {
    pos + 2 <= |d| && Parse(d[pos..]) == Some(Item(typ, tag, v, 1, 2))
  }

  lemma OneByte(typ: Type, tag: uint8, v: uint8)
    ensures ItemValue(typ, tag, [v]) == if typ == Global && 0 < tag < 5 && v >= 0x80 then v - 0x100 else v
  {
    var d := [v];
    assert d[1..] == [] && Le([]) == 0 && Le(d) == d[0] + 256 * Le(d[1..]);
    assert Pow256(0) == 1 && Pow256(1) == 256 * Pow256(0);
    hide Le, Pow256;
  }

  lemma HasByte(d: seq<uint8>, pos: nat, typ: Type, tag: uint8, v: uint8)
    requires tag < 15 && pos + 2 <= |d| && d[pos] == tag * 16 + TypeCode(typ) * 4 + 1 && d[pos + 1] == v
    ensures Has(d, pos, typ, tag, if typ == Global && 0 < tag < 5 && v >= 0x80 then v - 0x100 else v)
  {
    hide Parse, ItemValue;
    var rest := d[pos + 2..];
    OneByte(typ, tag, v);
    ParseShort(typ, tag, [v], rest);
    assert d[pos..] == [tag * 16 + TypeCode(typ) * 4 + 1] + [v] + rest;
  }

  /** Input, Output and Feature items as written; collections are none of them. */
  lemma MainItems(d: seq<uint8>, rt: ReportType)
    requires |d| >= 2 && d[0] in [0x81, 0x91, 0xb1, 0xa1]
    ensures Parse(d).Some?
    ensures var (item, v) := (Parse(d).value, d[1]);
            && (Matches(rt, item) <==> d[0] == match rt case Input => 0x81 case Output => 0x91 case Feature => 0xb1)
            && (Constant(item) <==> v % 2 == 1) && (Variable(item) <==> v / 2 % 2 == 1)
  {
    assert d[0..] == d;
    HasByte(d, 0, HidItems.Main, d[0] / 16, d[1]);
    hide Parse;
  }

  /** Usage Page, Logical Minimum, Report Size, Report ID and Report Count as written, and one that is ignored. */
  lemma GlobalItems(d: seq<uint8>, rt: ReportType, g: Globals)
    requires |d| >= 2 && d[0] in [0x05, 0x15, 0x25, 0x75, 0x85, 0x95]
    ensures Parse(d).Some?
    ensures var h := After(rt, g, Parse(d).value);
            var v: int := d[1];
            && (d[0] == 0x05 ==> h == g.(page := v))
            && (d[0] == 0x15 && v < 0x80 ==> h == g.(logicalMinimum := v))
            && (d[0] == 0x15 && v >= 0x80 ==> h == g.(logicalMinimum := v - 0x100))
            && (d[0] == 0x25 ==> h == g)
            && (d[0] == 0x75 ==> h == g.(size := v))
            && (d[0] == 0x85 ==> h == g.(id := v, bits := if v == g.id then g.bits else 0))
            && (d[0] == 0x95 ==> h == g.(count := v))
  {
    assert d[0..] == d;
    HasByte(d, 0, Global, d[0] / 16, d[1]);
    hide Parse;
  }

  /** A usage of one byte is one of the current page; one of four bytes names its page itself. */
  lemma UsageItems(s: Search, v: uint8, data: seq<uint8>, rest: seq<uint8>)
    requires |data| == 4
    ensures Parse([0x09, v] + rest).Some? && Parse([0x0b] + data + rest).Some?
    ensures Look(s, Parse([0x09, v] + rest).value).minimum == s.page * 0x1_0000 + v
    ensures Look(s, Parse([0x0b] + data + rest).value).minimum == Le(data)
  {
    hide Parse, ItemValue, Le, Pow256;
    LeTop(data);
    FourBytes(4);
    OneByte(Local, 0, v);
    ParseShort(Local, 0, [v], rest);
    ParseShort(Local, 0, data, rest);
    assert [0x09] + [v] + rest == [0x09, v] + rest;
    WholeUsage(data);
  }

  lemma WholeUsage(data: seq<uint8>)
    requires |data| == 4 && Le(data) < 0x1_0000_0000
    ensures ToUint32(ItemValue(Local, 0, data)) == Le(data)
  {
    hide Le, Pow256;
  }

  predicate Axes(d: seq<uint8>) {
    && Has(d, 0, Global, 0, 1) && Has(d, 2, Global, 1, -127)
    && Has(d, 4, Global, 7, 8) && Has(d, 6, Global, 9, 2)
    && Has(d, 8, Local, 0, 0x30) && Has(d, 10, Local, 0, 0x31)
    && Has(d, 12, HidItems.Main, 8, 2)
  }

  predicate Keys(d: seq<uint8>) {
    && Has(d, 14, Global, 0, 7) && Has(d, 16, Global, 9, 1)
    && Has(d, 18, Local, 0, 0x33) && Has(d, 20, HidItems.Main, 8, 3)
    && Has(d, 22, Global, 1, 0) && Has(d, 24, Global, 7, 1)
    && Has(d, 26, Global, 9, 2) && Has(d, 28, Local, 1, 4)
    && Has(d, 30, Local, 2, 5) && Has(d, 32, HidItems.Main, 8, 2)
    && Has(d, 34, Local, 0, 6) && Has(d, 36, HidItems.Main, 8, 0)
  }

  lemma CodeAxes(d: seq<uint8>)
    requires AxesBytes(d)
    ensures Axes(d)
  {
    hide Has;
    HasByte(d, 0, Global, 0, 1);
    HasByte(d, 2, Global, 1, 0x81);
    HasByte(d, 4, Global, 7, 8);
    HasByte(d, 6, Global, 9, 2);
    HasByte(d, 8, Local, 0, 0x30);
    HasByte(d, 10, Local, 0, 0x31);
    HasByte(d, 12, HidItems.Main, 8, 2);
  }

  lemma CodeKeys(d: seq<uint8>)
    requires KeysBytes(d)
    ensures Keys(d)
  {
    hide Has;
    HasByte(d, 14, Global, 0, 7);
    HasByte(d, 16, Global, 9, 1);
    HasByte(d, 18, Local, 0, 0x33);
    HasByte(d, 20, HidItems.Main, 8, 3);
    HasByte(d, 22, Global, 1, 0);
    HasByte(d, 24, Global, 7, 1);
    HasByte(d, 26, Global, 9, 2);
    HasByte(d, 28, Local, 1, 4);
    HasByte(d, 30, Local, 2, 5);
    HasByte(d, 32, HidItems.Main, 8, 2);
    HasByte(d, 34, Local, 0, 6);
    HasByte(d, 36, HidItems.Main, 8, 0);
  }

  // ----- The searches for usages

  lemma Skip(d: seq<uint8>, s: Search, pos: nat, typ: Type, tag: uint8, v: int32)
    requires Has(d, pos, typ, tag, v) && s.available == 0
    ensures Find(d, s, pos) == Find(d, Look(s, Item(typ, tag, v, 1, 2)), pos + 2)
  {
    hide Parse, Look;
  }

  lemma Stop(d: seq<uint8>, s: Search, pos: nat)
    requires pos <= |d| && s.available != 0
    ensures Find(d, s, pos) == (s, pos)
  {
  }

  function Nothing(page: uint16, minimum: uint32, maximum: uint32): Search {
    Search(page, minimum, maximum, false, false, 0, false)
  }

  lemma FindAxes(d: seq<uint8>)
    requires Axes(d)
    ensures |d| >= 12
    ensures Find(d, Nothing(0, 0, 0), 0) == (Search(1, 0x1_0030, 0, false, false, 1, false), 10)
    ensures Find(d, Nothing(1, 0x1_0031, 0), 10) == (Search(1, 0x1_0031, 0, false, false, 1, false), 12)
  {
    hide Find, Has;
    assert |d| >= 12 by { HasRoom(d); }
    var s := Nothing(0, 0, 0);
    Skip(d, s, 0, Global, 0, 1);
    s := s.(page := 1);
    Skip(d, s, 2, Global, 1, -127);
    Skip(d, s, 4, Global, 7, 8);
    Skip(d, s, 6, Global, 9, 2);
    Skip(d, s, 8, Local, 0, 0x30);
    Stop(d, s.(minimum := 0x1_0030, available := 1), 10);
    s := Nothing(1, 0x1_0031, 0);
    Skip(d, s, 10, Local, 0, 0x31);
    Stop(d, s.(minimum := 0x1_0031, available := 1), 12);
  }

  lemma HasRoom(d: seq<uint8>)
    requires Axes(d)
    ensures |d| >= 14
  {
  }

  lemma KeysRoom(d: seq<uint8>)
    requires Keys(d)
    ensures |d| >= 38
  {
  }

  lemma FindKeys(d: seq<uint8>)
    requires Keys(d)
    ensures |d| >= 38
    ensures Find(d, Nothing(7, 0x1_0032, 0), 22) == (Search(7, 0x7_0004, 0x7_0005, true, true, 2, true), 32)
    ensures Find(d, Nothing(7, 0x7_0006, 0x7_0005), 32)
         == (Search(7, 0x7_0006, 0x7_0005, false, false, 1, false), 36)
  {
    hide Find, Has;
    assert |d| >= 38 by { KeysRoom(d); }
    var s := Nothing(7, 0x1_0032, 0);
    Skip(d, s, 22, Global, 1, 0);
    Skip(d, s, 24, Global, 7, 1);
    Skip(d, s, 26, Global, 9, 2);
    Skip(d, s, 28, Local, 1, 4);
    s := s.(minimum := 0x7_0004, haveMin := true);
    Skip(d, s, 30, Local, 2, 5);
    Stop(d, Search(7, 0x7_0004, 0x7_0005, true, true, 2, true), 32);
    s := Nothing(7, 0x7_0006, 0x7_0005);
    Skip(d, s, 32, HidItems.Main, 8, 2);
    Skip(d, s, 34, Local, 0, 6);
    Stop(d, s.(minimum := 0x7_0006, available := 1), 36);
  }

  // ----- The fields of the three main items

  lemma FoundBy(d: seq<uint8>, c: Cursor, usagePos: nat, page: uint16)
    requires usagePos <= |d|
    ensures var (f, p) := Find(d, Nothing(page, c.minimum, c.maximum), usagePos);
            Searched(d, c, usagePos, page)
            == (Cursor(c.pos, f.minimum, f.maximum, f.available, c.required, f.range && f.available > 0), p, f.page)
  {
    hide Find;
  }

  lemma Two(a: Place, b: Place)
    ensures [b] + [] == [b] && [a] + [b] == [a, b]
  {
  }

  lemma AxesFields(d: seq<uint8>, g: Globals)
    requires Axes(d) && g.size == 8 && g.id == 0xffff && g.logicalMinimum == -127
    ensures |d| >= 14
    ensures Hand(d, 7, Cursor(0, 0, 0, 0, 2, false), 0, 0, true, g)
         == ([Place(7, 2, UsageItem(0xffff, 0, 1, 0x30, 8, true, -127)),
              Place(7, 1, UsageItem(0xffff, 8, 1, 0x31, 8, true, -127))],
             Served(Quest(12, 1, 0x1_0032, 0)))
  {
    hide Axes, Find, Hand;
    HasRoom(d);
    FindAxes(d);
    Two(Place(7, 2, UsageItem(0xffff, 0, 1, 0x30, 8, true, -127)),
        Place(7, 1, UsageItem(0xffff, 8, 1, 0x31, 8, true, -127)));
    FoundBy(d, Cursor(0, 0, 0, 0, 2, false), 0, 0);
    HandSearch(d, 7, Cursor(0, 0, 0, 0, 2, false), 0, 0, true, g);
    HandOne(d, 7, Cursor(0, 0x1_0030, 0, 1, 2, false), 10, 1, true, g);
    assert Advance(Cursor(0, 0x1_0030, 0, 1, 2, false), 8, true) == Cursor(8, 0x1_0031, 0, 0, 1, false);
    FoundBy(d, Cursor(8, 0x1_0031, 0, 0, 1, false), 10, 1);
    HandSearch(d, 7, Cursor(8, 0x1_0031, 0, 0, 1, false), 10, 1, true, g);
    HandOne(d, 7, Cursor(8, 0x1_0031, 0, 1, 1, false), 12, 1, true, g);
    assert Advance(Cursor(8, 0x1_0031, 0, 1, 1, false), 8, true) == Cursor(16, 0x1_0032, 0, 0, 0, false);
    HandIdle(d, 7, Cursor(16, 0x1_0032, 0, 0, 0, false), 12, 1, true, g);
  }

  lemma KeysFields(d: seq<uint8>, g: Globals)
    requires Keys(d) && g.size == 1 && g.id == 0xffff && g.logicalMinimum == 0
    ensures |d| >= 38
    ensures Hand(d, 17, Cursor(24, 0x1_0032, 0, 0, 2, false), 22, 7, true, g)
         == ([Place(17, 2, UsageItem(0xffff, 24, 7, 4, 1, true, 0)),
              Place(17, 1, UsageItem(0xffff, 25, 7, 5, 1, true, 0))],
             Served(Quest(32, 7, 0x7_0006, 0x7_0005)))
  {
    hide Keys, Find, Hand;
    KeysRoom(d);
    FindKeys(d);
    Two(Place(17, 2, UsageItem(0xffff, 24, 7, 4, 1, true, 0)), Place(17, 1, UsageItem(0xffff, 25, 7, 5, 1, true, 0)));
    FoundBy(d, Cursor(24, 0x1_0032, 0, 0, 2, false), 22, 7);
    HandSearch(d, 17, Cursor(24, 0x1_0032, 0, 0, 2, false), 22, 7, true, g);
    HandOne(d, 17, Cursor(24, 0x7_0004, 0x7_0005, 2, 2, true), 32, 7, true, g);
    assert Advance(Cursor(24, 0x7_0004, 0x7_0005, 2, 2, true), 1, true) == Cursor(25, 0x7_0005, 0x7_0005, 1, 1, true);
    HandOne(d, 17, Cursor(25, 0x7_0005, 0x7_0005, 1, 1, true), 32, 7, true, g);
    assert Advance(Cursor(25, 0x7_0005, 0x7_0005, 1, 1, true), 1, true) == Cursor(26, 0x7_0006, 0x7_0005, 0, 0, false);
    HandIdle(d, 17, Cursor(26, 0x7_0006, 0x7_0005, 0, 0, false), 32, 7, true, g);
  }

  lemma ArrayFields(d: seq<uint8>, g: Globals)
    requires Keys(d) && g.size == 1 && g.id == 0xffff && g.logicalMinimum == 0
    ensures |d| >= 38
    ensures Hand(d, 19, Cursor(26, 0x7_0006, 0x7_0005, 0, 2, false), 32, 7, false, g)
         == ([Place(19, 2, UsageItem(0xffff, 26, 7, 0, 1, false, 0)),
              Place(19, 1, UsageItem(0xffff, 27, 7, 0, 1, false, 0))],
             Served(Quest(36, 7, 0x7_0006, 0x7_0005)))
  {
    hide Keys, Find, Hand;
    KeysRoom(d);
    FindKeys(d);
    Two(Place(19, 2, UsageItem(0xffff, 26, 7, 0, 1, false, 0)), Place(19, 1, UsageItem(0xffff, 27, 7, 0, 1, false, 0)));
    FoundBy(d, Cursor(26, 0x7_0006, 0x7_0005, 0, 2, false), 32, 7);
    HandSearch(d, 19, Cursor(26, 0x7_0006, 0x7_0005, 0, 2, false), 32, 7, false, g);
    HandOne(d, 19, Cursor(26, 0x7_0006, 0x7_0005, 1, 2, false), 36, 7, false, g);
    assert Advance(Cursor(26, 0x7_0006, 0x7_0005, 1, 2, false), 1, false)
        == Cursor(27, 0x7_0006, 0x7_0005, 1, 1, false);
    HandOne(d, 19, Cursor(27, 0x7_0006, 0x7_0005, 1, 1, false), 36, 7, false, g);
    assert Advance(Cursor(27, 0x7_0006, 0x7_0005, 1, 1, false), 1, false)
        == Cursor(28, 0x7_0006, 0x7_0005, 0, 0, false);
    HandIdle(d, 19, Cursor(28, 0x7_0006, 0x7_0005, 0, 0, false), 36, 7, false, g);
  }

  // ----- The scan for main items

  lemma Read(d: seq<uint8>, n: nat, pos: nat, q: Quest, g: Globals, typ: Type, tag: uint8, v: int32)
    requires Has(d, pos, typ, tag, v) && q.usagePos <= |d| && !Due(Input, Item(typ, tag, v, 1, 2), g)
    ensures var item := Item(typ, tag, v, 1, 2);
            var h := After(Input, g, item);
            PlacesFrom(d, Input, n, pos, q, g)
            == PlacesFrom(d, Input, n + 1, pos + 2, Onward(q, item, pos + 2, h.page), h)
  {
    hide Due, After, PlacesFrom;
    PlacesStep(d, Input, n, pos, q, g, Item(typ, tag, v, 1, 2));
  }

  lemma Serve(d: seq<uint8>, n: nat, pos: nat, q: Quest, g: Globals, v: int32, a: Place, b: Place, next: Quest)
    requires Has(d, pos, HidItems.Main, 8, v) && q.usagePos <= |d| && next.usagePos <= |d|
    requires v % 2 == 0 && g.size * g.count < 0x1_0000 && g.count > 0
    requires var h := g.(bits := g.bits + g.size * g.count);
             Hand(d, n + 1, Cursor(ToUint16(g.bits), q.minimum, q.maximum, 0, g.count, false), q.usagePos, q.page,
                  v / 2 % 2 == 1, h)
             == ([a, b], Served(next))
    ensures PlacesFrom(d, Input, n, pos, q, g)
         == [a, b] + PlacesFrom(d, Input, n + 1, pos + 2, next, g.(bits := g.bits + g.size * g.count))
  {
    hide PlacesFrom, Hand;
    PlacesStep(d, Input, n, pos, q, g, Item(HidItems.Main, 8, v, 1, 2));
  }

  lemma ScanAxes(d: seq<uint8>)
    requires Axes(d) && |d| == 38
    ensures PlacesOf(d, Input)
         == [Place(7, 2, UsageItem(0xffff, 0, 1, 0x30, 8, true, -127)),
             Place(7, 1, UsageItem(0xffff, 8, 1, 0x31, 8, true, -127))]
          + PlacesFrom(d, Input, 7, 14, Quest(12, 1, 0x1_0032, 0), Globals(1, -127, 8, 2, 0xffff, 16))
  {
    hide PlacesFrom, Hand, Has;
    var q, g := Quest(0, 0, 0, 0), Globals(1, -127, 8, 2, 0xffff, 0);
    Read(d, 0, 0, q, Fold(Input, []), Global, 0, 1);
    Read(d, 1, 2, q, Globals(1, 0, 0, 0, 0xffff, 0), Global, 1, -127);
    Read(d, 2, 4, q, Globals(1, -127, 0, 0, 0xffff, 0), Global, 7, 8);
    Read(d, 3, 6, q, Globals(1, -127, 8, 0, 0xffff, 0), Global, 9, 2);
    Read(d, 4, 8, q, g, Local, 0, 0x30);
    Read(d, 5, 10, q, g, Local, 0, 0x31);
    AxesFields(d, g.(bits := 16));
    Serve(d, 6, 12, q, g, 2, Place(7, 2, UsageItem(0xffff, 0, 1, 0x30, 8, true, -127)),
          Place(7, 1, UsageItem(0xffff, 8, 1, 0x31, 8, true, -127)), Quest(12, 1, 0x1_0032, 0));
  }

  lemma ScanConstant(d: seq<uint8>)
    requires Keys(d) && |d| == 38
    ensures PlacesFrom(d, Input, 7, 14, Quest(12, 1, 0x1_0032, 0), Globals(1, -127, 8, 2, 0xffff, 16))
         == PlacesFrom(d, Input, 11, 22, Quest(22, 7, 0x1_0032, 0), Globals(7, -127, 8, 1, 0xffff, 24))
  {
    hide PlacesFrom, Hand, Has;
    var q := Quest(12, 1, 0x1_0032, 0);
    Read(d, 7, 14, q, Globals(1, -127, 8, 2, 0xffff, 16), Global, 0, 7);
    Read(d, 8, 16, q, Globals(7, -127, 8, 2, 0xffff, 16), Global, 9, 1);
    Read(d, 9, 18, q, Globals(7, -127, 8, 1, 0xffff, 16), Local, 0, 0x33);
    Read(d, 10, 20, q, Globals(7, -127, 8, 1, 0xffff, 16), HidItems.Main, 8, 3);
  }

  lemma ScanKeys(d: seq<uint8>)
    requires Keys(d) && |d| == 38
    ensures PlacesFrom(d, Input, 11, 22, Quest(22, 7, 0x1_0032, 0), Globals(7, -127, 8, 1, 0xffff, 24))
         == [Place(17, 2, UsageItem(0xffff, 24, 7, 4, 1, true, 0)),
             Place(17, 1, UsageItem(0xffff, 25, 7, 5, 1, true, 0))]
          + PlacesFrom(d, Input, 17, 34, Quest(32, 7, 0x7_0006, 0x7_0005), Globals(7, 0, 1, 2, 0xffff, 26))
  {
    hide PlacesFrom, Hand, Has;
    var q, g := Quest(22, 7, 0x1_0032, 0), Globals(7, 0, 1, 2, 0xffff, 24);
    Read(d, 11, 22, q, Globals(7, -127, 8, 1, 0xffff, 24), Global, 1, 0);
    Read(d, 12, 24, q, Globals(7, 0, 8, 1, 0xffff, 24), Global, 7, 1);
    Read(d, 13, 26, q, Globals(7, 0, 1, 1, 0xffff, 24), Global, 9, 2);
    Read(d, 14, 28, q, g, Local, 1, 4);
    Read(d, 15, 30, q, g, Local, 2, 5);
    KeysFields(d, g.(bits := 26));
    Serve(d, 16, 32, q, g, 2, Place(17, 2, UsageItem(0xffff, 24, 7, 4, 1, true, 0)),
          Place(17, 1, UsageItem(0xffff, 25, 7, 5, 1, true, 0)), Quest(32, 7, 0x7_0006, 0x7_0005));
  }

  lemma ScanArray(d: seq<uint8>)
    requires Keys(d) && |d| == 38
    ensures PlacesFrom(d, Input, 17, 34, Quest(32, 7, 0x7_0006, 0x7_0005), Globals(7, 0, 1, 2, 0xffff, 26))
         == [Place(19, 2, UsageItem(0xffff, 26, 7, 0, 1, false, 0)),
             Place(19, 1, UsageItem(0xffff, 27, 7, 0, 1, false, 0))]
  {
    hide PlacesFrom, Hand, Has;
    var q, g := Quest(32, 7, 0x7_0006, 0x7_0005), Globals(7, 0, 1, 2, 0xffff, 26);
    Read(d, 17, 34, q, g, Local, 0, 6);
    ArrayFields(d, g.(bits := 28));
    var a := Place(19, 2, UsageItem(0xffff, 26, 7, 0, 1, false, 0));
    var b := Place(19, 1, UsageItem(0xffff, 27, 7, 0, 1, false, 0));
    Serve(d, 18, 36, q, g, 0, a, b, Quest(36, 7, 0x7_0006, 0x7_0005));
    assert d[38..] == [];
    PlacesEnd(d, Input, 19, 38, Quest(36, 7, 0x7_0006, 0x7_0005), g.(bits := 28));
    assert [a, b] + [] == [a, b];
  }

  /** The iterator's answer for this descriptor, field by field. */
  lemma DescribedFields(d: seq<uint8>)
    requires AxesBytes(d) && KeysBytes(d)
    ensures Fields(PlacesOf(d, Input)) == Expected()
  {
    CodeAxes(d);
    CodeKeys(d);
    hide PlacesFrom, PlacesOf, Axes, Keys;
    ScanAxes(d);
    ScanConstant(d);
    ScanKeys(d);
    ScanArray(d);
    SixFields(PlacesOf(d, Input));
  }

  lemma SixFields(places: seq<Place>)
    requires var u := Expected();
             places == [Place(7, 2, u[0]), Place(7, 1, u[1])]
                       + ([Place(17, 2, u[2]), Place(17, 1, u[3])] + [Place(19, 2, u[4]), Place(19, 1, u[5])])
    ensures Fields(places) == Expected()
  {
    var u, f := Expected(), Fields(places);
    hide Expected;
    assert f[0] == u[0] && f[1] == u[1] && f[2] == u[2] && f[3] == u[3] && f[4] == u[4] && f[5] == u[5];
    assert forall i :: 0 <= i < 6 ==> f[i] == u[i];
  }
}
