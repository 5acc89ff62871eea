/** Reading reports: every field of a descriptor, and the value of one field. */
module HidReport {
  import opened Widths
  import opened Sequences
  import opened Wrappers
  import opened HidItems
  import opened HidUsage
  import opened HidPlaces
  import opened HidIterator
  import opened HidLayout
  import opened HidInPlace
  import opened HidReportSize
  import opened BitFields

  /** Hands out exactly the fields of the descriptor. */
  method AllFields(d: seq<uint8>, rt: ReportType) returns (fields: seq<UsageItem>)
    requires |d| < 0x1_0000
    ensures fields == Fields(PlacesOf(d, rt))
  {
    NoFields();
    hide *;
    var it := new UsageIterator(d, rt);
    ghost var places: seq<Place> := [];
    fields := [];
    var more := it.HasMore();
    while more
      invariant it.Valid() && fresh(it) && fresh(it.items)
      invariant more == (it.state == UsagesAvailable) == (it.ToCome() != [])
      invariant PlacesOf(d, rt) == places + it.ToCome() && fields == Fields(places)
      decreases |it.ToCome()|
    {
      ghost var ahead := it.ToCome();
      var u := it.GetItem();
      MoveOn(places, ahead[0], ahead, it.ToCome());
      FieldsAppend(places, ahead[0]);
      fields, places := fields + [u], places + [ahead[0]];
      more := it.HasMore();
    }
    NothingBehind(places);
  }

  lemma NoFields()
    ensures Fields([]) == []
  {
  }

  lemma FieldsAppend(places: seq<Place>, p: Place)
    ensures Fields(places + [p]) == Fields(places) + [p.field]
  {
  }

  /** The fields of one report, as handed out, have increasing and disjoint positions inside the bytes
      that the separate size computation gives the report. */
  lemma FieldsOfOneReport(d: seq<uint8>, rt: ReportType, fields: seq<UsageItem>, id: uint16, bytes: int)
    requires fields == Fields(PlacesOf(d, rt)) && AllRangesFit(d, rt) && Short(rt, ItemsOf(d))
    requires AllNarrow(ItemsOf(d)) && Contiguous(rt, id, ItemsOf(d))
    requires bytes == Bytes(PassAll(rt, id, Start(), ItemsOf(d)).0.total)
    ensures forall i, j :: 0 <= i < j < |fields| && fields[i].reportId == id == fields[j].reportId
              ==> fields[i].bitPos + fields[i].size <= fields[j].bitPos
    ensures forall i :: 0 <= i < |fields| && fields[i].reportId == id
              ==> fields[i].bitPos + fields[i].size <= 8 * bytes
  {
    FitIsInOrder(d, rt);
    SizeIsTotal(rt, id, ItemsOf(d));
    hide AllNarrow, PassAll, Start, Placed, TotalBits, Contiguous, PlacesOf, ItemsOf, AllRangesFit, Short,
      CountedDown, Before;
    var items, places := ItemsOf(d), PlacesOf(d, rt);
    forall i, j | 0 <= i < j < |fields| && fields[i].reportId == id == fields[j].reportId
      ensures fields[i].bitPos + fields[i].size <= fields[j].bitPos
    {
      FieldsDisjoint(rt, items, places[i], places[j]);
    }
    forall i | 0 <= i < |fields| && fields[i].reportId == id
      ensures fields[i].bitPos + fields[i].size <= 8 * bytes
    {
      FieldInReport(rt, items, places[i]);
    }
  }

  /** The position in the report includes the report id in front. */
  function StartBit(u: UsageItem): uint16 {
    if u.reportId == UNDEFINED then u.bitPos else ToUint16(u.bitPos + 8)
  }

  /** A field the parser can read: inside the report, eight bits further on if there is a report id in front, and
      within the 32 bits it gathers. */
  predicate Readable(u: UsageItem, report: seq<uint8>) {
    var start := if u.reportId == 0xffff then u.bitPos else (u.bitPos + 8) % 0x1_0000;
    1 <= u.size < 32 && start % 8 + u.size <= 32 && start + u.size <= 8 * |report|
  }

  /** Behind a report id the positions count from the second byte on; the 16 bits of the position may wrap. */
  lemma StartBitIs(u: UsageItem, report: seq<uint8>)
    requires Readable(u, report)
    ensures u.reportId == 0xffff ==> Field(report, StartBit(u), u.size) == Field(report, u.bitPos, u.size)
    ensures u.reportId != 0xffff && u.bitPos + 8 < 0x1_0000 ==>
              Field(report, StartBit(u), u.size) == Field(report[1..], u.bitPos, u.size)
    ensures u.reportId != 0xffff && u.bitPos + 8 >= 0x1_0000 ==>
              Field(report, StartBit(u), u.size) == Field(report, u.bitPos + 8 - 0x1_0000, u.size)
  {
    hide Field;
    if u.reportId != 0xffff && u.bitPos + 8 < 0x1_0000 {
      FieldBehindByte(report, u.bitPos, u.size);
    }
  }

  /** Bits of a variable field; a negative logical minimum makes it two's complement. */
  function VariableValue(u: UsageItem, bits: nat): int
    requires u.size > 0
  {
    if u.logicalMinimum < 0 && bits >= Pow2(u.size - 1) then bits - Pow2(u.size) else bits
  }

  /** The one number in range whose lowest bits are those of the field. */
  lemma VariableValueIs(u: UsageItem, bits: nat, v: int)
    requires u.size > 0 && bits < Pow2(u.size)
    ensures v == VariableValue(u, bits) <==>
      && (v == bits || v == bits - Pow2(u.size))
      && if u.logicalMinimum < 0 then 0 <= v + Pow2(u.size - 1) && v < Pow2(u.size - 1)
         else 0 <= v < Pow2(u.size)
  {
    assert Pow2(u.size) == 2 * Pow2(u.size - 1);
  }

  method CutOut(word: uint32, start: nat, size: nat) returns (bits: uint32)
    ensures bits == Low(Shr(word, start), size) < Pow2(size)
  {
    AndMask(Shr(word, start), size);
    LowBelow(Shr(word, start), size);
    ShrAtMost(word, start);
    LowAtMost(Shr(word, start), size);
    bits := And(Shr(word, start), Pow2(size) - 1);
  }

  /** The value of a variable field, from its bits. */
  method ReadVariable(u: UsageItem, bits: uint32) returns (value: int32)
    requires 1 <= u.size < 32 && bits < Pow2(u.size)
    ensures value == VariableValue(u, bits)
  {
    AndTop(bits, u.size - 1);
    Pow2Monotone(u.size, 31);
    WordSize();
    if u.logicalMinimum < 0 && And(bits, Pow2(u.size - 1)) != 0 {
      value := ToInt32(bits - Pow2(u.size));
    } else {
      value := bits;
    }
  }

  lemma TouchedBytes(bitPos: nat, size: nat, len: nat)
    requires 1 <= size < 32 && bitPos % 8 + size <= 32 && bitPos + size <= 8 * len
    ensures var start, end := bitPos / 8, (bitPos + size - 1) / 8;
            start <= end < len && end - start < 4 && bitPos % 8 + size <= 8 * (end - start + 1)
  {
  }

  method GatherBytes(report: seq<uint8>, start: nat, n: nat) returns (word: uint32)
    requires start + n <= |report| && n <= 4
    ensures word == Le(report[start..start + n])
  {
    hide Or, Shl32, Le, Pow2;
    word := 0;
    var i := 0;
    NoBytes();
    assert report[start..start] == [];
    while i < n
      invariant 0 <= i <= n
      invariant word == Le(report[start..start + i]) < Pow2(8 * i)
    {
      OneMoreByte(report[start..start + i], report[start + i]);
      assert report[start..start + i] + [report[start + i]] == report[start..start + i + 1];
      word := Or(word, Shl32(report[start + i], i * 8));
      i := i + 1;
    }
  }

  lemma NoBytes()
    ensures Le([]) == 0 && Pow2(0) == 1
  {
  }

  class HidParser {
    const it: UsageIterator
    const report: seq<uint8>
    var ready: bool
    var item: UsageItem

    constructor (d: seq<uint8>, rt: ReportType, report: seq<uint8>)
      requires |d| < 0x1_0000 && 0 < |report| < 0x1_0000
      ensures Valid() && fresh(it) && fresh(it.items) && !ready && it.ToCome() == PlacesOf(d, rt)
      ensures it.d == d && it.reportType == rt && this.report == report
    {
      it := new UsageIterator(d, rt);
      this.report, ready := report, false;
      item := UsageItem(0, 0, 0, 0, 0, false, 0);
    }

    ghost predicate Valid()
      reads this, it, it.items
    {
      it.Valid() && 0 < |report| < 0x1_0000 && (ready ==> Mine(item))
    }

    /** A field of the report at hand. */
    predicate Mine(u: UsageItem)
      reads this
      requires report != []
    {
      u.reportId == UNDEFINED || u.reportId == report[0]
    }

    /** The next field of any report. */
    method Fetch() returns (found: bool, ghost next: seq<Place>)
      requires Valid() && !ready
      modifies this`item, it, it.items
      ensures Valid() && old(it.ToCome()) == next + it.ToCome()
      ensures if found then |next| == 1 && next[0].field == item else next == it.ToCome() == []
    {
      found := it.HasMore();
      next := [];
      if found {
        next := it.ToCome()[..1];
        item := it.GetItem();
      }
    }

    /** What was fetched belongs to the fields passed over, or is the one taken. */
    lemma Passing(all: seq<Place>, passed: seq<Place>, ahead: seq<Place>, next: seq<Place>, rest: seq<Place>)
      requires all == passed + [] + ahead && ahead == next + rest
      ensures all == (passed + next) + [] + rest && all == passed + next + rest
      ensures next == [] ==> all == passed + [] + rest
    {
    }

    /** Moves on to the next field of this report, passing over those of other reports and no others; there is
        none exactly if all fields to come are of other reports. */
    method HasMore() returns (more: bool, ghost passed: seq<Place>, ghost taken: seq<Place>)
      requires Valid()
      modifies this, it, it.items
      ensures Valid() && more == ready && old(it.ToCome()) == passed + taken + it.ToCome()
      ensures forall i :: 0 <= i < |passed| ==>
                passed[i].field.reportId != 0xffff && passed[i].field.reportId != report[0]
      ensures more ==> item.reportId == 0xffff || item.reportId == report[0]
      ensures old(ready) ==> more && item == old(item) && passed == taken == []
      ensures !old(ready) && more ==> |taken| == 1 && taken[0].field == item
      ensures !more ==> taken == it.ToCome() == []
    {
      hide UsageIterator.Valid, UsageIterator.ToCome, UsageIterator.Core;
      passed, taken := [], [];
      if ready { return true, [], []; }
      ghost var all := it.ToCome();
      var found := true;
      while !ready && found
        invariant Valid() && all == passed + taken + it.ToCome()
        invariant forall i :: 0 <= i < |passed| ==> !Mine(passed[i].field)
        invariant if ready then |taken| == 1 && taken[0].field == item else taken == []
        invariant !found ==> !ready && it.ToCome() == []
        decreases !ready && found, |it.ToCome()|
      {
        ghost var ahead, next := it.ToCome(), [];
        found, next := Fetch();
        Passing(all, passed, ahead, next, it.ToCome());
        if found {
          if item.reportId != UNDEFINED && item.reportId != report[0] {
            passed := passed + next;
          } else {
            ready, taken := true, next;
          }
        }
      }
      more := ready;
    }

    /** The bytes the field touches, gathered into one word. */
    method Gather(u: UsageItem) returns (word: uint32)
      requires Readable(u, report) && |report| < 0x1_0000
      ensures Low(Shr(word, StartBit(u) % 8), u.size) == Field(report, StartBit(u), u.size)
    {
      var bitPos := StartBit(u);
      var start := Min(bitPos / 8, |report|);
      var end := Min((bitPos + u.size - 1) / 8, |report|);
      var n := end - start + 1;
      TouchedBytes(bitPos, u.size, |report|);
      hide Readable, StartBit, Low, Shr, Field, Le;
      word := GatherBytes(report, start, n);
      FieldInBytes(report, bitPos, u.size, n);
    }

    /** btstack_hid_parser_get_field */
    method GetField() returns (usagePage: uint16, usage: uint16, value: int32, ghost bits: uint32)
      requires Valid() && ready && Readable(item, report)
      modifies this`ready
      ensures !ready && usagePage == item.usagePage
      ensures item.reportId == 0xffff ==> bits == Field(report, item.bitPos, item.size)
      ensures item.reportId != 0xffff && item.bitPos + 8 < 0x1_0000 ==>
                bits == Field(report[1..], item.bitPos, item.size)
      ensures item.reportId != 0xffff && item.bitPos + 8 >= 0x1_0000 ==>
                bits == Field(report, item.bitPos + 8 - 0x1_0000, item.size)
      ensures if item.variable then usage == item.usage && value == VariableValue(item, bits)
              else usage == ToUint16(bits) && value == 1
    {
      hide Field, VariableValue, Low, Shr;
      StartBitIs(item, report);
      usagePage, usage := item.usagePage, item.usage;
      var word := Gather(item);
      var unsignedValue := CutOut(word, StartBit(item) % 8, item.size);
      if item.variable {
        value := ReadVariable(item, unsignedValue);
      } else {
        usage, value := ToUint16(unsignedValue), 1;
      }
      ready, bits := false, unsignedValue;
    }
  }
}
