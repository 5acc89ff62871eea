/** The usage iterator: one cursor runs over the main items, a second one over the usages before each of
    them, and what is handed out is the next of the fields of the descriptor. */
module HidIterator {
  import opened Widths
  import opened Wrappers
  import opened HidItems
  import opened HidUsage
  import opened HidPlaces

  class UsageIterator {
    const d: seq<uint8>
    const reportType: ReportType
    const items: ItemIterator
    var state: State
    var descriptorItem: Item
    var reportPos: uint16
    var usagePos: uint16
    var usagePage: uint16
    var usageMinimum: uint32
    var usageMaximum: uint32
    var available: uint16
    var required: uint16
    var usageRange: bool
    var globalLogicalMinimum: int32
    var globalUsagePage: uint16
    var globalReportSize: uint8
    var globalReportCount: uint8
    var globalReportId: uint16
    /** The items read so far. */
    ghost var seen: seq<Item>

    constructor (d: seq<uint8>, reportType: ReportType)
      requires |d| < 0x1_0000
      ensures Valid() && fresh(items) && state == ScanForReportItem
      ensures this.d == d && this.reportType == reportType && ToCome() == PlacesOf(d, reportType)
    {
      hide Find, Parse, After, Advance, PlacesFrom;
      this.d, this.reportType, state := d, reportType, ScanForReportItem;
      items := new ItemIterator(d);
      descriptorItem := Item(HidItems.Main, 0, 0, 0, 0);
      reportPos, usagePos, usagePage, usageMinimum, usageMaximum := 0, 0, 0, 0, 0;
      available, required, usageRange := 0, 0, false;
      globalLogicalMinimum, globalUsagePage, globalReportSize, globalReportCount := 0, 0, 0, 0;
      globalReportId := UNDEFINED;
      seen := [];
      new;
      assert d[0..] == d;
      HandIdle(d, 0, Now(), 0, 0, Variable(descriptorItem), G());
    }

    /** The globals and the position agree with the items read so far; while fields are on offer, the
        position and the fields left add up to the end of the main item. */
    ghost predicate Valid()
      reads this, items
    {
      && Core()
      && (state == ScanForReportItem ==> Scanning())
      && (state == UsagesAvailable ==> Offering())
    }

    ghost predicate Core()
      reads this, items
    {
      && items.Valid() && items.d == d && usagePos <= |d| < 0x1_0000
      && ItemsOf(d) == seen + items.Ahead()
      && GlobalsAgree()
    }

    /** The fields still to be handed out. */
    ghost function ToCome(): seq<Place>
      requires Valid()
      reads this, items
    {
      if state == ParserComplete then [] else Coming()
    }

    ghost function Coming(): seq<Place>
      requires Core()
      reads this, items
    {
      Then(d, reportType, |seen|, items.pos, G(),
           Hand(d, |seen|, Now(), usagePos, usagePage, Variable(descriptorItem), G()))
    }

    ghost function G(): Globals
      reads this
    {
      Fold(reportType, seen)
    }

    ghost predicate GlobalsAgree()
      reads this
    {
      && G().page == globalUsagePage && G().logicalMinimum == globalLogicalMinimum
      && G().size == globalReportSize && G().count == globalReportCount && G().id == globalReportId
    }

    ghost predicate Scanning()
      reads this
    {
      available == 0 && required == 0 && reportPos == ToUint16(G().bits)
    }

    ghost predicate Offering()
      reads this
    {
      && seen != [] && descriptorItem == seen[|seen| - 1]
      && Matches(reportType, descriptorItem) && !Constant(descriptorItem)
      && available > 0 && (!Variable(descriptorItem) ==> required > 0)
      && BitsAhead(required) == ToUint16(G().bits)
    }

    function BitsAhead(n: uint16): uint16
      reads this
    {
      ToUint16(reportPos + Extent(globalReportSize, n))
    }

    ghost function Now(): Cursor
      reads this
    {
      Cursor(reportPos, usageMinimum, usageMaximum, available, required, usageRange && available > 0)
    }

    /** btstack_usage_iterator_hid_find_next_usage */
    method FindUsage()
      requires available == 0 && usagePos <= |d| < 0x1_0000
      modifies this`usagePage, this`usageMinimum, this`usageMaximum, this`available, this`usageRange, this`usagePos
      ensures var s := old(Search(usagePage, usageMinimum, usageMaximum, false, false, 0, false));
              var (f, p) := Find(d, s, old(usagePos));
              && usagePos == p && usagePage == f.page && usageMinimum == f.minimum && usageMaximum == f.maximum
              && available == f.available && usageRange == f.range
      ensures old(usagePos) <= usagePos <= |d| && (available > 0 ==> old(usagePos) < usagePos)
      ensures if usageRange then ToUint16(usageMaximum - usageMinimum + 1) == available else available <= 1
    {
      hide Look, Find, Parse, ItemsOf, Sound, WellFormed;
      ghost var start, s0 := usagePos, Search(usagePage, usageMinimum, usageMaximum, false, false, 0, false);
      FoundUsable(d, s0, start);
      var haveMin, haveMax := false, false;
      usageRange := false;
      var cursor := new ItemIterator(d[usagePos..]);
      while available == 0
        invariant cursor.Valid() && fresh(cursor) && cursor.d == d[start..] && usagePos == start && !cursor.ready
        invariant Find(d, s0, start) == Find(d, Gathered(haveMin, haveMax), start + cursor.pos)
        decreases |d| - cursor.pos
      {
        FindStep(d, start, Gathered(haveMin, haveMax), cursor.pos);
        var more := cursor.HasMore();
        if !more { break; }
        var item := cursor.GetItem();
        haveMin, haveMax := TakeUsage(item, haveMin, haveMax);
      }
      FindStep(d, start, Gathered(haveMin, haveMax), cursor.pos);
      usagePos := usagePos + cursor.pos;
    }

    ghost function Gathered(haveMin: bool, haveMax: bool): Search
      reads this
    {
      Search(usagePage, usageMinimum, usageMaximum, haveMin, haveMax, available, usageRange)
    }

    method TakeUsage(item: Item, haveMin0: bool, haveMax0: bool) returns (haveMin: bool, haveMax: bool)
      modifies this`usagePage, this`usageMinimum, this`usageMaximum, this`available, this`usageRange
      ensures Gathered(haveMin, haveMax) == Look(old(Gathered(haveMin0, haveMax0)), item)
    {
      haveMin, haveMax := haveMin0, haveMax0;
      if item.typ == Global && item.tag == USAGE_PAGE {
        usagePage := ToUint16(item.value);
      }
      if item.typ == Local {
        var usageValue := UsageValue(usagePage, item);
        if item.tag == USAGE {
          available, usageMinimum := 1, usageValue;
        } else if item.tag == USAGE_MINIMUM {
          usageMinimum, haveMin := usageValue, true;
        } else if item.tag == USAGE_MAXIMUM {
          usageMaximum, haveMax := usageValue, true;
        }
        if haveMin && haveMax {
          available, usageRange := ToUint16(usageMaximum - usageMinimum + 1), true;
        }
      }
    }

    /** btstack_hid_usage_iterator_handle_global_item and the position reset beside it */
    method HandleGlobal(item: Item)
      requires item.typ == Global && GlobalsAgree() && reportPos == ToUint16(G().bits)
      modifies this`globalUsagePage, this`globalLogicalMinimum, this`globalReportSize, this`globalReportCount,
        this`globalReportId, this`reportPos, this`seen
      ensures seen == old(seen) + [item]
      ensures GlobalsAgree() && reportPos == ToUint16(G().bits)
    {
      AfterGlobal(reportType, seen, item);
      seen := seen + [item];
      hide Fold, After;
      var before := globalReportId;
      if item.tag == USAGE_PAGE {
        globalUsagePage := ToUint16(item.value);
      } else if item.tag == LOGICAL_MINIMUM {
        globalLogicalMinimum := item.value;
      } else if item.tag == REPORT_SIZE {
        globalReportSize := ToUint8(item.value);
      } else if item.tag == REPORT_ID {
        globalReportId := ToUint16(item.value);
      } else if item.tag == REPORT_COUNT {
        globalReportCount := ToUint8(item.value);
      }
      if before != globalReportId {
        reportPos := 0;
      }
    }

    /** btstack_parser_usage_iterator_process_item for the items that are not Global */
    method HandleMain(item: Item)
      requires item.typ != Global && GlobalsAgree() && Scanning()
      modifies this`reportPos, this`required, this`seen
      ensures seen == old(seen) + [item] && GlobalsAgree()
      ensures if Due(reportType, item, old(G())) then required == globalReportCount && reportPos == old(reportPos)
              else required == 0
      ensures BitsAhead(required) == ToUint16(G().bits)
    {
      hide Fold, Extent, After, Matches;
      AfterMain(reportType, seen, item);
      seen := seen + [item];
      if Matches(reportType, item) {
        if item.value % 2 == 1 {
          reportPos := BitsAhead(globalReportCount);
        } else if globalReportCount != 0 {
          required := globalReportCount;
        }
      }
    }

    /** Reads one item: its fields come next, or the scan goes on behind it. */
    method TakeItem()
      requires Core() && Scanning() && items.ready && state == ScanForReportItem
      modifies this`reportPos, this`required, this`seen, this`descriptorItem, this`globalUsagePage,
        this`globalLogicalMinimum, this`globalReportSize, this`globalReportCount, this`globalReportId, items
      ensures Core() && !items.ready && items.pos > old(items.pos) && seen == old(seen) + [descriptorItem]
      ensures required > 0 ==> Matches(reportType, descriptorItem) && !Constant(descriptorItem)
      ensures BitsAhead(required) == ToUint16(G().bits)
      ensures if required > 0 || descriptorItem.typ != HidItems.Main then Coming() == old(Coming())
              else PlacesFrom(d, reportType, |seen|, items.pos,
                              Quest(items.pos, globalUsagePage, usageMinimum, usageMaximum), G()) == old(Coming())
    {
      hide ItemsOf, WellFormed, Parse, Fold, Find, Extent, Hand, PlacesFrom, After, Constant, Variable;
      ghost var g, pos, q := G(), items.pos, Quest(usagePos, usagePage, usageMinimum, usageMaximum);
      HandIdle(d, |seen|, Now(), usagePos, usagePage, Variable(descriptorItem), G());
      descriptorItem := items.GetItem();
      FoldAppend(reportType, seen, descriptorItem);
      PlacesStep(d, reportType, |seen|, pos, q, g, descriptorItem);
      if descriptorItem.typ == Global {
        HandleGlobal(descriptorItem);
      } else {
        HandleMain(descriptorItem);
      }
      HandIdle(d, |seen|, Now(), usagePos, usagePage, Variable(descriptorItem), G());
    }

    /** Looks up usages for the fields left in the main item just read. */
    method OfferFields()
      requires Core() && available == 0 && 0 < required && state != ParserComplete
      requires seen != [] && descriptorItem == seen[|seen| - 1]
      requires Matches(reportType, descriptorItem) && !Constant(descriptorItem)
      requires BitsAhead(required) == ToUint16(G().bits)
      modifies this`usagePage, this`usageMinimum, this`usageMaximum, this`available, this`usageRange, this`usagePos,
        this`state
      ensures Valid() && state != ScanForReportItem && ToCome() == old(Coming())
    {
      hide ItemsOf, WellFormed, Parse, Fold, Find, Extent, Hand, PlacesFrom, Matches, Constant, Variable;
      HandSearch(d, |seen|, Now(), usagePos, usagePage, Variable(descriptorItem), G());
      FindUsage();
      if available > 0 {
        state := UsagesAvailable;
      } else {
        state := ParserComplete;
      }
    }

    /** One turn of the scan. */
    method ScanItem()
      requires Valid() && state == ScanForReportItem && items.ready
      modifies this, items
      ensures Valid() && items.pos > old(items.pos) && ToCome() == old(ToCome())
    {
      hide ItemsOf, WellFormed, Parse, Fold, Find, Extent, Matches, Constant, Hand, PlacesFrom, Variable;
      TakeItem();
      if required > 0 {
        OfferFields();
      } else if descriptorItem.typ == HidItems.Main {
        usagePos, usagePage := items.pos, globalUsagePage;
        HandIdle(d, |seen|, Now(), usagePos, usagePage, Variable(descriptorItem), G());
      }
    }

    /** btstack_hid_usage_iterator_find_next_usage */
    method FindMain()
      requires Valid() && state == ScanForReportItem
      modifies this, items
      ensures Valid() && state != ScanForReportItem && ToCome() == old(ToCome())
    {
      hide ItemsOf, WellFormed, Fold, Find, Extent, Matches, Constant, Hand, PlacesFrom, Variable;
      while true
        invariant Valid() && state == ScanForReportItem && ToCome() == old(ToCome())
        decreases |d| - items.pos
      {
        var more := items.HasMore();
        if !more {
          HandIdle(d, |seen|, Now(), usagePos, usagePage, Variable(descriptorItem), G());
          PlacesEnd(d, reportType, |seen|, items.pos, Quest(usagePos, usagePage, usageMinimum, usageMaximum), G());
          state := ParserComplete;
          return;
        }
        ScanItem();
        if state != ScanForReportItem {
          return;
        }
      }
    }

    /** There is more exactly as long as fields are still to come. */
    method HasMore() returns (more: bool)
      requires Valid()
      modifies this, items
      ensures Valid() && ToCome() == old(ToCome())
      ensures more == (state == UsagesAvailable) == (ToCome() != [])
    {
      hide ItemsOf, WellFormed, Parse, Fold, Find, Extent, Matches, Constant, Hand, PlacesFrom, Variable;
      while state == ScanForReportItem
        invariant Valid() && ToCome() == old(ToCome())
        decreases if state == ScanForReportItem then 1 else 0
      {
        FindMain();
      }
      more := state == UsagesAvailable;
      if more {
        HandOne(d, |seen|, Now(), usagePos, usagePage, Variable(descriptorItem), G());
      }
    }

    /** The step past one field, before more usages are looked up. */
    method StepPast(variable: bool)
      requires available > 0
      modifies this`required, this`reportPos, this`usageMinimum, this`available
      ensures Now() == Advance(old(Now()), globalReportSize, variable)
    {
      required := ToUint16(required - 1);
      reportPos := ToUint16(reportPos + globalReportSize);
      if variable {
        usageMinimum := ToUint32(usageMinimum + 1);
        available := available - 1;
        if usageRange && usageMinimum > usageMaximum {
          reportPos := BitsAhead(required);
          required := 0;
        }
      } else if required == 0 {
        available := 0;
      }
    }

    /** The field on offer. */
    method CurrentField() returns (u: UsageItem)
      requires GlobalsAgree()
      ensures u == FieldAt(Now(), G(), Variable(descriptorItem))
    {
      hide Fold;
      var variable := Variable(descriptorItem);
      u := UsageItem(globalReportId, reportPos, usageMinimum / 0x1_0000,
                     if variable then ToUint16(usageMinimum) else 0, globalReportSize, variable, globalLogicalMinimum);
    }

    /** Hands out one field; what is to come after it is decided by where the cursor stands now. */
    method HandOut() returns (u: UsageItem)
      requires Valid() && state == UsagesAvailable
      modifies this`required, this`reportPos, this`usageMinimum, this`available
      ensures Core() && old(Coming()) == [Place(|seen|, old(required), u)] + Coming()
      ensures BitsAhead(required) == ToUint16(G().bits)
      ensures available > 0 && !Variable(descriptorItem) ==> required > 0
    {
      hide Find, Parse, ItemsOf, WellFormed, Fold, Extent, Matches, Constant, ToUint16, Advance, Hand,
        PlacesFrom, Variable;
      u := CurrentField();
      ghost var c := Now();
      AdvanceCounts(c, globalReportSize, u.variable);
      AdvanceKeepsEnd(c, globalReportSize, u.variable);
      HandOne(d, |seen|, c, usagePos, usagePage, u.variable, G());
      StepPast(u.variable);
    }

    /** btstack_hid_usage_iterator_get_item */
    method GetItem() returns (u: UsageItem)
      requires Valid() && state == UsagesAvailable
      modifies this
      ensures Valid() && old(ToCome()) == [Place(|seen|, old(required), u)] + ToCome()
    {
      hide Find, Parse, ItemsOf, WellFormed, Fold, Extent, Matches, Constant, ToUint16, Advance, Hand,
        PlacesFrom, Then, Variable;
      u := HandOut();
      if available == 0 {
        if required == 0 {
          state := ScanForReportItem;
        } else {
          OfferFields();
        }
      }
    }
  }
}
