/** The usage iterator: one cursor runs over the main items, a second one over the usages before
    each of them, and every field handed out carries its bit position in the report. */
module HidUsage {
  import opened Widths
  import opened Wrappers
  import opened HidItems

  datatype ReportType = Input | Output | Feature

  datatype State = ScanForReportItem | UsagesAvailable | ParserComplete

  datatype UsageItem = UsageItem(
    reportId: uint16, bitPos: uint16, usagePage: uint16, usage: uint16, size: uint8,
    variable: bool, logicalMinimum: int32)

  /** What the items so far say about the main item that follows; bits is the total size of the main
      items of the wanted type since the report id last changed. */
  datatype Globals = Globals(page: uint16, logicalMinimum: int32, size: uint8, count: uint8, id: uint16, bits: nat)

  const UNDEFINED: uint16 := 0xffff

  predicate Matches(rt: ReportType, item: Item) {
    item.typ == Main && match rt
                        case Input => item.tag == INPUT
                        case Output => item.tag == OUTPUT
                        case Feature => item.tag == FEATURE
  }

  predicate Constant(item: Item) { item.value % 2 == 1 }
  predicate Variable(item: Item) { item.value / 2 % 2 == 1 }

  /** Bits of n fields. */
  function Extent(size: uint8, n: uint16): (bits: nat)
    ensures n == 0 ==> bits == 0
  {
    size * n
  }

  function After(rt: ReportType, g: Globals, item: Item): Globals {
    if Matches(rt, item) then g.(bits := g.bits + Extent(g.size, g.count))
    else if item.typ == Global then Declared(g, item)
    else g
  }

  /** Global items; all but five are ignored. */
  function Declared(g: Globals, item: Item): Globals {
    var v := item.value;
    if item.tag == USAGE_PAGE then g.(page := ToUint16(v))
    else if item.tag == LOGICAL_MINIMUM then g.(logicalMinimum := v)
    else if item.tag == REPORT_SIZE then g.(size := ToUint8(v))
    else if item.tag == REPORT_ID then g.(id := ToUint16(v), bits := if ToUint16(v) == g.id then g.bits else 0)
    else if item.tag == REPORT_COUNT then g.(count := ToUint8(v))
    else g
  }

  function Fold(rt: ReportType, items: seq<Item>): Globals {
    if items == [] then Globals(0, 0, 0, 0, UNDEFINED, 0)
    else After(rt, Fold(rt, items[..|items| - 1]), items[|items| - 1])
  }

  lemma FoldAppend(rt: ReportType, items: seq<Item>, item: Item)
    ensures Fold(rt, items + [item]) == After(rt, Fold(rt, items), item)
  {
    assert (items + [item])[..|items|] == items;
  }

  /** What the usage cursor has gathered. */
  datatype Search = Search(
    page: uint16, minimum: uint32, maximum: uint32, haveMin: bool, haveMax: bool, available: uint16, range: bool)

  function Look(s: Search, item: Item): Search {
    if item.typ == Global && item.tag == USAGE_PAGE then s.(page := ToUint16(item.value))
    else if item.typ == Local then Ranged(LookLocal(s, item.tag, UsageValue(s.page, item)))
    else s
  }

  /** Short usages belong to the current usage page. */
  function UsageValue(page: uint16, item: Item): uint32 {
    if item.dataSize > 2 then ToUint32(item.value)
    else ToUint32(page * 0x1_0000 + item.value)
  }

  function LookLocal(s: Search, tag: uint8, v: uint32): Search {
    if tag == USAGE then s.(available := 1, minimum := v)
    else if tag == USAGE_MINIMUM then s.(minimum := v, haveMin := true)
    else if tag == USAGE_MAXIMUM then s.(maximum := v, haveMax := true)
    else s
  }

  function Ranged(s: Search): Search {
    if s.haveMin && s.haveMax then s.(available := ToUint16(s.maximum - s.minimum + 1), range := true) else s
  }

  /** Reads items from pos until usages are available; also where it stopped. */
  function Find(d: seq<uint8>, s: Search, pos: nat): (Search, nat)
    requires pos <= |d|
    decreases |d| - pos
  {
    if s.available != 0 then (s, pos)
    else match Parse(d[pos..])
         case None => (s, pos)
         case Some(item) => Find(d, Look(s, item), pos + item.size)
  }

  /** A range offers as many usages as it spans, up to the 16 bits of the counter; a single usage is one. */
  predicate Sound(s: Search) {
    && s.range == (s.haveMin && s.haveMax)
    && if s.range then s.available == ToUint16(s.maximum - s.minimum + 1) else s.available <= 1
  }

  lemma {:induction false} FindAdvances(d: seq<uint8>, s: Search, pos: nat)
    requires pos <= |d| && Sound(s)
    ensures var (f, p) := Find(d, s, pos);
            Sound(f) && pos <= p <= |d| && (s.available == 0 && f.available != 0 ==> pos < p)
    decreases |d| - pos
  {
    if s.available == 0 && Parse(d[pos..]).Some? {
      var item := Parse(d[pos..]).value;
      LookSound(s, item);
      hide Look, Sound, Parse;
      FindAdvances(d, Look(s, item), pos + item.size);
    }
  }

  lemma LookSound(s: Search, item: Item)
    requires Sound(s)
    ensures Sound(Look(s, item))
  {
  }

  /** The part of the iterator that moves while the fields of one main item are handed out. */
  datatype Cursor = Cursor(
    pos: uint16, minimum: uint32, maximum: uint32, available: uint16, required: uint16, range: bool)

  /** After handing out one field. A range that ends early gives up the fields left over. */
  function Advance(c: Cursor, size: uint8, variable: bool): Cursor {
    var left := ToUint16(c.required - 1);
    var pos := ToUint16(c.pos + size);
    if !variable then
      var av := if left == 0 then 0 else c.available;
      c.(required := left, pos := pos, available := av, range := c.range && av > 0)
    else
      var min, av := ToUint32(c.minimum + 1), ToUint16(c.available - 1);
      var over := c.range && min > c.maximum;
      Cursor(if over then ToUint16(pos + Extent(size, left)) else pos, min, c.maximum, av,
             if over then 0 else left, c.range && av > 0)
  }

  function EndOf(c: Cursor, size: uint8): uint16 { ToUint16(c.pos + Extent(size, c.required)) }

  /** The usages on offer were found by a search: one, or as many as a range spans in 16 bits. */
  predicate Found(c: Cursor) {
    if c.range then c.available == ToUint16(c.maximum - c.minimum + 1) else c.available <= 1
  }

  /** Enough fields are left for the usages on offer. An upside-down range ends after one usage, unless
      its minimum is the largest number there is, after which it goes on from zero. */
  predicate Fits(c: Cursor) {
    c.available <= c.required
    && (c.range ==> c.minimum <= c.maximum || c.minimum == 0xffff_ffff || c.available == 1)
  }

  /** The end of the main item stays where it is, whether fields are handed out, given up or overrun. */
  lemma AdvanceKeepsEnd(c: Cursor, size: uint8, variable: bool)
    ensures EndOf(Advance(c, size, variable), size) == EndOf(c, size)
  {
    hide Extent, ToUint16, ToUint32;
    var left := ToUint16(c.required - 1);
    OneFieldLess(size, c.required);
    Sum16(c.pos + size, Extent(size, left));
    Sum16(size + Extent(size, left), c.pos);
    Sum16(Extent(size, c.required), c.pos);
  }

  lemma OneFieldLess(size: uint8, required: uint16)
    ensures ToUint16(size + Extent(size, ToUint16(required - 1))) == ToUint16(Extent(size, required))
  {
    if required == 0 {
      assert Extent(size, 0xffff) == size * 0xffff;
    } else {
      assert Extent(size, required) == Extent(size, required - 1) + size;
    }
  }

  /** Usages that fit never run out of fields, and one field after the other is used up. */
  lemma AdvanceKeepsFits(c: Cursor, size: uint8)
    requires c.available > 0 && Found(c) && Fits(c)
    ensures var n := Advance(c, size, true);
            && Found(n) && (n.available > 0 ==> Fits(n) && n.required == c.required - 1 > 0)
            && (n.required == c.required - 1 || (n.required == 0 && n.minimum > n.maximum))
  {
    hide Extent;
  }

  /** Usages that do not fit: the fields run out while usages are left, now or after some more fields. */
  lemma AdvanceKeepsMisfit(c: Cursor, size: uint8)
    requires 0 < c.available && 0 < c.required && Found(c) && !Fits(c)
    ensures var n := Advance(c, size, true);
            n.available > 0 && Found(n) && (n.required == 0 || (n.required < c.required && !Fits(n)))
  {
    hide Extent;
  }

  /** Usages of a variable item and fields of an array item are used up one by one. */
  lemma AdvanceCounts(c: Cursor, size: uint8, variable: bool)
    requires c.available > 0 && (!variable ==> c.required > 0)
    ensures var n := Advance(c, size, variable);
            if variable then n.available == c.available - 1
            else n.required == c.required - 1 && (n.available > 0 <==> n.required > 0)
  {
  }

  lemma FoundUsable(d: seq<uint8>, s: Search, pos: nat)
    requires pos <= |d| && s.available == 0 && !s.haveMin && !s.haveMax && !s.range
    ensures var (f, p) := Find(d, s, pos);
            && pos <= p <= |d| && (f.available > 0 ==> pos < p)
            && if f.range then f.available == ToUint16(f.maximum - f.minimum + 1) else f.available <= 1
  {
    FindAdvances(d, s, pos);
  }

  lemma AfterGlobal(rt: ReportType, items: seq<Item>, item: Item)
    requires item.typ == Global
    ensures Fold(rt, items + [item]) == Declared(Fold(rt, items), item)
  {
    FoldAppend(rt, items, item);
    hide Fold, Declared;
  }

  lemma AfterMain(rt: ReportType, items: seq<Item>, item: Item)
    requires item.typ != Global
    ensures var (g, h) := (Fold(rt, items), Fold(rt, items + [item]));
            var bits := if Matches(rt, item) then Extent(g.size, g.count) else 0;
            h == g.(bits := h.bits) && ToUint16(h.bits) == ToUint16(ToUint16(g.bits) + bits)
  {
    FoldAppend(rt, items, item);
    hide Extent, Fold, ToUint16;
    Sum16(Fold(rt, items).bits, Extent(Fold(rt, items).size, Fold(rt, items).count));
  }

  /** One turn of the search, as seen by a cursor that counts from the start of the search. */
  lemma FindStep(d: seq<uint8>, start: nat, s: Search, pos: nat)
    requires start + pos <= |d|
    ensures var r := Parse(d[start..][pos..]);
            Find(d, s, start + pos)
            == if s.available != 0 || r.None? then (s, start + pos)
               else Find(d, Look(s, r.value), start + pos + r.value.size)
  {
    hide Parse, Look;
    assert d[start..][pos..] == d[start + pos..];
  }
}
