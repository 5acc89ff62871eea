/** The fields of a descriptor against its main items: which are handed out, in which order, and exactly
    when all of them lie in the main item they belong to. */
module HidInPlace {
  import opened Widths
  import opened Wrappers
  import opened HidItems
  import opened HidUsage
  import opened HidPlaces
  import opened HidLayout

  /** Size and id are those of the main item, and the fields left reach to its end, modulo 16 bits. */
  predicate Aligned(rt: ReportType, items: seq<Item>, p: Place) {
    && 0 < p.at <= |items| && Matches(rt, items[p.at - 1])
    && var h := Fold(rt, items[..p.at]);
       && p.field.size == h.size && p.field.reportId == h.id
       && ToUint16(p.field.bitPos + Extent(h.size, p.left)) == ToUint16(h.bits)
  }

  /** The scan has read n items and stands at pos. */
  predicate Reached(d: seq<uint8>, rt: ReportType, items: seq<Item>, n: nat, pos: nat, g: Globals) {
    pos <= |d| && n <= |items| && items[n..] == ItemsOf(d[pos..]) && g == Fold(rt, items[..n])
  }

  lemma ReachedNext(d: seq<uint8>, rt: ReportType, items: seq<Item>, n: nat, pos: nat, g: Globals, item: Item)
    requires Reached(d, rt, items, n, pos, g) && Parse(d[pos..]) == Some(item)
    ensures n < |items| && items[n] == item && pos + item.size <= |d|
    ensures Reached(d, rt, items, n + 1, pos + item.size, After(rt, g, item))
  {
    hide After, Parse;
    assert d[pos..][item.size..] == d[pos + item.size..];
    assert items[n..] == [item] + ItemsOf(d[pos + item.size..]);
    assert items[n + 1..] == items[n..][1..];
    PrefixStep(items, n);
    FoldAppend(rt, items[..n], item);
  }

  lemma {:induction false} HandAligned(d: seq<uint8>, at: nat, c: Cursor, usagePos: nat, page: uint16,
                                       variable: bool, g: Globals)
    requires usagePos <= |d|
    ensures forall p :: p in Hand(d, at, c, usagePos, page, variable, g).0 ==>
              && p.at == at && p.field.size == g.size && p.field.reportId == g.id
              && ToUint16(p.field.bitPos + Extent(g.size, p.left)) == EndOf(c, g.size)
    decreases |d| - usagePos, if variable then c.available else c.required
  {
    hide Advance, Find, ToUint16, Extent;
    if OnOffer(c, variable) {
      AdvanceKeepsEnd(c, g.size, variable);
      AdvanceCounts(c, g.size, variable);
      HandAligned(d, at, Advance(c, g.size, variable), usagePos, page, variable, g);
    } else if c.required > 0 {
      var (n, p, pg) := Searched(d, c, usagePos, page);
      if n.available > 0 {
        HandAligned(d, at, n, p, pg, variable, g);
      }
    }
  }

  lemma DueEnd(rt: ReportType, g: Globals, q: Quest, item: Item)
    requires Due(rt, item, g)
    ensures var h := After(rt, g, item);
            h.size == g.size && h.id == g.id && h.count == g.count && EndOf(StartOf(g, q), h.size) == ToUint16(h.bits)
  {
    hide ToUint16, Extent;
    Sum16(g.bits, Extent(g.size, g.count));
  }

  predicate AllAligned(rt: ReportType, items: seq<Item>, n: nat, places: seq<Place>) {
    forall p :: p in places ==> n < p.at && Aligned(rt, items, p)
  }

  lemma DueAligned(d: seq<uint8>, rt: ReportType, n: nat, next: nat, q: Quest, g: Globals, items: seq<Item>, item: Item)
    requires q.usagePos <= |d| && Due(rt, item, g) && Reached(d, rt, items, n + 1, next, After(rt, g, item))
    requires items[n] == item
    ensures AllAligned(rt, items, n,
                       Hand(d, n + 1, StartOf(g, q), q.usagePos, q.page, Variable(item), After(rt, g, item)).0)
  {
    HandAligned(d, n + 1, StartOf(g, q), q.usagePos, q.page, Variable(item), After(rt, g, item));
    DueEnd(rt, g, q, item);
    hide Hand, After, Constant, Variable, Fold, ItemsOf, ToUint16, Extent, StartOf, EndOf, Aligned;
    var h := After(rt, g, item);
    forall p | p in Hand(d, n + 1, StartOf(g, q), q.usagePos, q.page, Variable(item), h).0
      ensures n < p.at && Aligned(rt, items, p)
    {
      AlignedOne(rt, items, n, p, h);
    }
  }

  lemma AlignedOne(rt: ReportType, items: seq<Item>, n: nat, p: Place, h: Globals)
    requires n < |items| && Matches(rt, items[n]) && h == Fold(rt, items[..n + 1]) && p.at == n + 1
    requires p.field.size == h.size && p.field.reportId == h.id
    requires ToUint16(p.field.bitPos + Extent(h.size, p.left)) == ToUint16(h.bits)
    ensures Aligned(rt, items, p)
  {
    hide Fold, ToUint16, Extent, Matches;
  }

  lemma AlignedConcat(rt: ReportType, items: seq<Item>, n: nat, a: seq<Place>, b: seq<Place>)
    requires AllAligned(rt, items, n, a) && AllAligned(rt, items, n + 1, b)
    ensures AllAligned(rt, items, n, a + b) && AllAligned(rt, items, n, b)
  {
    hide Aligned;
  }

  lemma {:induction false} PlacesAligned(d: seq<uint8>, rt: ReportType, n: nat, pos: nat, q: Quest, g: Globals,
                                         items: seq<Item>)
    requires q.usagePos <= |d| && pos <= |d| && Reached(d, rt, items, n, pos, g)
    ensures AllAligned(rt, items, n, PlacesFrom(d, rt, n, pos, q, g))
    decreases |d| - pos
  {
    hide Hand, After, Matches, Constant, Variable, Fold, ItemsOf, Reached, Aligned, AllAligned, StartOf;
    if Parse(d[pos..]).Some? {
      var item := Parse(d[pos..]).value;
      hide Parse;
      var next, h := pos + item.size, After(rt, g, item);
      ReachedNext(d, rt, items, n, pos, g, item);
      if Due(rt, item, g) {
        var r := Hand(d, n + 1, StartOf(g, q), q.usagePos, q.page, Variable(item), h);
        DueAligned(d, rt, n, next, q, g, items, item);
        if r.1.Served? {
          PlacesAligned(d, rt, n + 1, next, r.1.next, h, items);
          AlignedConcat(rt, items, n, r.0, PlacesFrom(d, rt, n + 1, next, r.1.next, h));
        }
      } else {
        var q' := Onward(q, item, next, h.page);
        PlacesAligned(d, rt, n + 1, next, q', h, items);
        NoneAligned(rt, items, n);
        AlignedConcat(rt, items, n, [], PlacesFrom(d, rt, n + 1, next, q', h));
      }
    } else {
      NoneAligned(rt, items, n);
    }
  }

  lemma NoneAligned(rt: ReportType, items: seq<Item>, n: nat)
    ensures AllAligned(rt, items, n, [])
  {
  }

  // ----- Order, and nothing skipped

  /** Items in order; in each of them, count, count - 1, ... fields left. */
  predicate CountedDown(rt: ReportType, items: seq<Item>, n: nat, places: seq<Place>) {
    forall i :: 0 <= i < |places| ==> Continues(rt, items, n, places, i)
  }

  /** Field i goes on with the item of the field before it, or starts with all fields of a later item. */
  predicate Continues(rt: ReportType, items: seq<Item>, n: nat, places: seq<Place>, i: nat)
    requires i < |places|
  {
    var p, before := places[i], if i == 0 then n else places[i - 1].at;
    && 0 < p.at <= |items| && 0 < p.left
    && if i > 0 && p.at == before then p.left == places[i - 1].left - 1
       else before < p.at && p.left == Fold(rt, items[..p.at]).count
  }

  lemma OneItem(rt: ReportType, items: seq<Item>, n: nat, places: seq<Place>)
    requires n < |items| && |places| <= Fold(rt, items[..n + 1]).count
    requires forall i :: 0 <= i < |places| ==>
      places[i].at == n + 1 && places[i].left == Fold(rt, items[..n + 1]).count - i
    ensures CountedDown(rt, items, n, places)
  {
    hide Fold;
  }

  lemma CountedConcat(rt: ReportType, items: seq<Item>, n: nat, a: seq<Place>, b: seq<Place>)
    requires CountedDown(rt, items, n, a) && CountedDown(rt, items, n + 1, b)
    requires forall i :: 0 <= i < |a| ==> a[i].at == n + 1
    ensures CountedDown(rt, items, n, a + b)
  {
    hide Fold;
    forall i | 0 <= i < |a + b|
      ensures Continues(rt, items, n, a + b, i)
    {
      if i < |a| {
        assert Continues(rt, items, n, a, i);
      } else {
        assert Continues(rt, items, n + 1, b, i - |a|);
      }
    }
  }

  lemma CountedNone(rt: ReportType, items: seq<Item>, n: nat)
    ensures CountedDown(rt, items, n, [])
  {
  }

  /** What the main item just read yields. */
  lemma DueCounted(d: seq<uint8>, rt: ReportType, n: nat, next: nat, q: Quest, g: Globals, items: seq<Item>, item: Item)
    requires q.usagePos <= |d| && Due(rt, item, g) && Reached(d, rt, items, n + 1, next, After(rt, g, item))
    requires HandFits(d, StartOf(g, q), q.usagePos, q.page, Variable(item), After(rt, g, item).size)
    ensures var r := Hand(d, n + 1, StartOf(g, q), q.usagePos, q.page, Variable(item), After(rt, g, item));
            CountedDown(rt, items, n, r.0) && forall i :: 0 <= i < |r.0| ==> r.0[i].at == n + 1
  {
    HandCounts(d, n + 1, StartOf(g, q), q.usagePos, q.page, Variable(item), After(rt, g, item));
    DueEnd(rt, g, q, item);
    var r := Hand(d, n + 1, StartOf(g, q), q.usagePos, q.page, Variable(item), After(rt, g, item));
    hide Hand, HandFits, After, Constant, Variable, Fold, ItemsOf;
    OneItem(rt, items, n, r.0);
  }

  lemma {:induction false} PlacesCounted(d: seq<uint8>, rt: ReportType, n: nat, pos: nat, q: Quest, g: Globals,
                                         items: seq<Item>)
    requires q.usagePos <= |d| && pos <= |d| && Reached(d, rt, items, n, pos, g) && RangesFit(d, rt, n, pos, q, g)
    ensures CountedDown(rt, items, n, PlacesFrom(d, rt, n, pos, q, g))
    decreases |d| - pos
  {
    hide Hand, HandFits, After, Matches, Constant, Variable, Fold, ItemsOf, Reached, CountedDown, StartOf;
    if Parse(d[pos..]).Some? {
      var item := Parse(d[pos..]).value;
      hide Parse;
      var next, h := pos + item.size, After(rt, g, item);
      ReachedNext(d, rt, items, n, pos, g, item);
      if Due(rt, item, g) {
        var r := Hand(d, n + 1, StartOf(g, q), q.usagePos, q.page, Variable(item), h);
        DueCounted(d, rt, n, next, q, g, items, item);
        if r.1.Served? {
          PlacesCounted(d, rt, n + 1, next, r.1.next, h, items);
          CountedConcat(rt, items, n, r.0, PlacesFrom(d, rt, n + 1, next, r.1.next, h));
        }
      } else {
        var q' := Onward(q, item, next, h.page);
        PlacesCounted(d, rt, n + 1, next, q', h, items);
        CountedNone(rt, items, n);
        CountedConcat(rt, items, n, [], PlacesFrom(d, rt, n + 1, next, q', h));
        assert [] + PlacesFrom(d, rt, n + 1, next, q', h) == PlacesFrom(d, rt, n + 1, next, q', h);
      }
    } else {
      CountedNone(rt, items, n);
    }
  }

  predicate Reports(places: seq<Place>, at: nat) {
    exists i :: 0 <= i < |places| && places[i].at == at
  }

  /** Item k has fields: some of them are among the places, or the usages ran out before. */
  predicate Accounted(rt: ReportType, items: seq<Item>, places: seq<Place>, k: nat)
    requires k < |items|
  {
    Due(rt, items[k], Fold(rt, items[..k])) ==>
      Reports(places, k + 1) || forall i :: 0 <= i < |places| ==> places[i].at <= k
  }

  lemma ReportsConcat(a: seq<Place>, b: seq<Place>, at: nat)
    ensures Reports(a + b, at) <==> Reports(a, at) || Reports(b, at)
  {
    if Reports(a, at) {
      var i :| 0 <= i < |a| && a[i].at == at;
      assert (a + b)[i].at == at;
    }
    if Reports(b, at) {
      var i :| 0 <= i < |b| && b[i].at == at;
      assert (a + b)[|a| + i].at == at;
    }
  }

  lemma AccountedConcat(rt: ReportType, items: seq<Item>, a: seq<Place>, b: seq<Place>, k: nat)
    requires k < |items| && Accounted(rt, items, b, k)
    requires forall i :: 0 <= i < |a| ==> a[i].at <= k
    ensures Accounted(rt, items, a + b, k)
  {
    ReportsConcat(a, b, k + 1);
    hide Due, Fold, Reports;
  }

  lemma {:induction false} NothingSkipped(d: seq<uint8>, rt: ReportType, n: nat, pos: nat, q: Quest, g: Globals,
                                          items: seq<Item>, k: nat)
    requires q.usagePos <= |d| && pos <= |d| && Reached(d, rt, items, n, pos, g) && n <= k < |items|
    ensures Accounted(rt, items, PlacesFrom(d, rt, n, pos, q, g), k)
    decreases |d| - pos
  {
    hide Hand, After, Matches, Constant, Variable, Fold, StartOf, ItemsOf, Reached, Parse, PlacesFrom,
      Accounted, Reports, Find;
    MoreItems(d, rt, items, n, pos, g);
    var item := Parse(d[pos..]).value;
    var next, h := pos + item.size, After(rt, g, item);
    ReachedNext(d, rt, items, n, pos, g, item);
    ReachedFold(d, rt, items, n, pos, g);
    PlacesStep(d, rt, n, pos, q, g, item);
    if Due(rt, item, g) {
      var r := Hand(d, n + 1, StartOf(g, q), q.usagePos, q.page, Variable(item), h);
      DueReported(d, n + 1, g, q, Variable(item), h);
      if r.1.Served? {
        var rest := PlacesFrom(d, rt, n + 1, next, r.1.next, h);
        if k > n {
          NothingSkipped(d, rt, n + 1, next, r.1.next, h, items, k);
        }
        DueAccounted(rt, items, n, r.0, rest, k);
      } else {
        DueAccounted(rt, items, n, r.0, [], k);
        assert r.0 + [] == r.0;
      }
    } else if k == n {
      AccountedIdle(rt, items, PlacesFrom(d, rt, n, pos, q, g), k);
    } else {
      NothingSkipped(d, rt, n + 1, next, Onward(q, item, next, h.page), h, items, k);
    }
  }

  lemma DueAccounted(rt: ReportType, items: seq<Item>, n: nat, a: seq<Place>, b: seq<Place>, k: nat)
    requires n <= k < |items| && (forall i :: 0 <= i < |a| ==> a[i].at == n + 1)
    requires Reports(a, n + 1) || (a == [] && b == [])
    requires k > n ==> b == [] || Accounted(rt, items, b, k)
    ensures Accounted(rt, items, a + b, k)
  {
    hide Reports, Due, Fold;
    ReportsConcat(a, b, k + 1);
    if k == n {
      AccountedNow(rt, items, a + b, k);
    } else if b == [] {
      AccountedBefore(rt, items, a + b, k);
    } else {
      AccountedConcat(rt, items, a, b, k);
    }
  }

  lemma MoreItems(d: seq<uint8>, rt: ReportType, items: seq<Item>, n: nat, pos: nat, g: Globals)
    requires pos <= |d| && Reached(d, rt, items, n, pos, g) && n < |items|
    ensures Parse(d[pos..]).Some?
  {
    hide Parse, Fold;
    assert items[n..] != [];
  }

  lemma AccountedNow(rt: ReportType, items: seq<Item>, places: seq<Place>, k: nat)
    requires k < |items| && (Reports(places, k + 1) || places == [])
    ensures Accounted(rt, items, places, k)
  {
  }

  lemma AccountedBefore(rt: ReportType, items: seq<Item>, places: seq<Place>, k: nat)
    requires k < |items| && forall i :: 0 <= i < |places| ==> places[i].at <= k
    ensures Accounted(rt, items, places, k)
  {
  }

  lemma AccountedIdle(rt: ReportType, items: seq<Item>, places: seq<Place>, k: nat)
    requires k < |items| && !Due(rt, items[k], Fold(rt, items[..k]))
    ensures Accounted(rt, items, places, k)
  {
  }

  lemma ReachedFold(d: seq<uint8>, rt: ReportType, items: seq<Item>, n: nat, pos: nat, g: Globals)
    requires Reached(d, rt, items, n, pos, g)
    ensures n <= |items| && g == Fold(rt, items[..n])
  {
  }

  lemma DueReported(d: seq<uint8>, at: nat, g: Globals, q: Quest, variable: bool, h: Globals)
    requires q.usagePos <= |d| && g.count > 0
    ensures var r := Hand(d, at, StartOf(g, q), q.usagePos, q.page, variable, h);
            && (r.1.Served? || r.0 != [] ==> Reports(r.0, at))
            && forall i :: 0 <= i < |r.0| ==> r.0[i].at == at
  {
    HandStarts(d, at, StartOf(g, q), q.usagePos, q.page, variable, h);
    HandAligned(d, at, StartOf(g, q), q.usagePos, q.page, variable, h);
    hide Hand;
    var r := Hand(d, at, StartOf(g, q), q.usagePos, q.page, variable, h);
    assert r.0 != [] ==> r.0[0].at == at;
  }

  // ----- The fields of a whole descriptor

  /** Every main item with fields has some of them handed out, unless the usages ran out at it or before it. */
  lemma EveryItemAccounted(d: seq<uint8>, rt: ReportType)
    ensures forall k :: 0 <= k < |ItemsOf(d)| ==> Accounted(rt, ItemsOf(d), PlacesOf(d, rt), k)
  {
    AtStart(d, rt);
    hide ItemsOf, PlacesFrom, Accounted, Fold, Reached;
    forall k | 0 <= k < |ItemsOf(d)|
      ensures Accounted(rt, ItemsOf(d), PlacesOf(d, rt), k)
    {
      NothingSkipped(d, rt, 0, 0, Quest(0, 0, 0, 0), Fold(rt, []), ItemsOf(d), k);
    }
  }

  lemma AtStart(d: seq<uint8>, rt: ReportType)
    ensures Reached(d, rt, ItemsOf(d), 0, 0, Fold(rt, []))
  {
    assert d[0..] == d && ItemsOf(d)[0..] == ItemsOf(d) && ItemsOf(d)[..0] == [];
  }

  /** The field lies between the bits where its main item starts and ends. */
  predicate Inside(rt: ReportType, items: seq<Item>, p: Place) {
    && 0 < p.at <= |items|
    && Fold(rt, items[..p.at - 1]).bits <= p.field.bitPos
    && p.field.bitPos + p.field.size <= Fold(rt, items[..p.at]).bits
  }

  /** The fields are in their places and in the order of the descriptor. */
  predicate InOrder(rt: ReportType, items: seq<Item>, places: seq<Place>) {
    && (forall i :: 0 <= i < |places| ==> Placed(rt, items, places[i]))
    && (forall i, j :: 0 <= i < j < |places| ==> Before(places[i], places[j]))
  }

  lemma {:induction false} CountedOrder(rt: ReportType, items: seq<Item>, n: nat, places: seq<Place>, i: nat, j: nat)
    requires CountedDown(rt, items, n, places) && i < j < |places|
    ensures Before(places[i], places[j])
    decreases j - i
  {
    hide Fold;
    assert Continues(rt, items, n, places, j);
    if i + 1 < j {
      CountedOrder(rt, items, n, places, i, j - 1);
    }
  }

  lemma {:induction false} CountedBounds(rt: ReportType, items: seq<Item>, n: nat, places: seq<Place>, i: nat)
    requires CountedDown(rt, items, n, places) && i < |places|
    ensures 0 < places[i].at <= |items| && 0 < places[i].left <= Fold(rt, items[..places[i].at]).count
    decreases i
  {
    hide Fold;
    assert Continues(rt, items, n, places, i);
    if i > 0 {
      CountedBounds(rt, items, n, places, i - 1);
    }
  }

  /** If all usage ranges fit, every field is in place, and they come in the order of the descriptor. */
  lemma FitIsInOrder(d: seq<uint8>, rt: ReportType)
    requires AllRangesFit(d, rt) && Short(rt, ItemsOf(d))
    ensures CountedDown(rt, ItemsOf(d), 0, PlacesOf(d, rt))
    ensures InOrder(rt, ItemsOf(d), PlacesOf(d, rt))
  {
    var items, places, q, g := ItemsOf(d), PlacesOf(d, rt), Quest(0, 0, 0, 0), Fold(rt, []);
    AtStart(d, rt);
    PlacesCounted(d, rt, 0, 0, q, g, items);
    PlacesAligned(d, rt, 0, 0, q, g, items);
    hide PlacesOf, Fold, ItemsOf, Short, Placed, CountedDown, Extent, ToUint16, Matches;
    forall i | 0 <= i < |places|
      ensures Placed(rt, items, places[i])
    {
      CountedBounds(rt, items, 0, places, i);
      assert places[i] in places;
      HandedOut(rt, items, places[i]);
    }
    forall i, j | 0 <= i < j < |places|
      ensures Before(places[i], places[j])
    {
      CountedOrder(rt, items, 0, places, i, j);
    }
  }

  /** A field that was not due starts where its main item ends. */
  lemma NotDueOutside(rt: ReportType, items: seq<Item>, p: Place)
    requires Aligned(rt, items, p) && p.left == 0 && Short(rt, items)
    ensures p.field.bitPos == Fold(rt, items[..p.at]).bits
    ensures p.field.size > 0 ==> !Inside(rt, items, p)
  {
    assert Fold(rt, items[..p.at]).bits < 0x1_0000;
    hide Fold, Matches;
  }

  lemma {:induction false} SomeNotDue(places: seq<Place>) returns (i: nat)
    requires !AllDue(places)
    ensures i < |places| && places[i].left == 0
  {
    i :| i < |places| && places[i].left == 0;
  }

  /** Every field lies inside its main item exactly if every usage range found for a variable item offers no
      more usages than there are fields left for it, and no upside-down one offers more than one. */
  lemma InsideIff(d: seq<uint8>, rt: ReportType)
    requires Short(rt, ItemsOf(d)) && forall p :: p in PlacesOf(d, rt) ==> p.field.size > 0
    ensures AllRangesFit(d, rt) <==> forall p :: p in PlacesOf(d, rt) ==> Inside(rt, ItemsOf(d), p)
  {
    var items, places, q, g := ItemsOf(d), PlacesOf(d, rt), Quest(0, 0, 0, 0), Fold(rt, []);
    AllDueIff(d, rt);
    AtStart(d, rt);
    PlacesAligned(d, rt, 0, 0, q, g, items);
    hide AllRangesFit, Fold, ItemsOf, Short, Inside, Aligned, AllDue;
    if AllRangesFit(d, rt) {
      FitIsInOrder(d, rt);
      hide PlacesOf, Placed;
      forall p | p in places
        ensures Inside(rt, items, p)
      {
        PlacedInside(rt, items, p);
      }
    } else {
      hide PlacesOf;
      var i := SomeNotDue(places);
      NotDueOutside(rt, items, places[i]);
    }
  }

  lemma PlacedInside(rt: ReportType, items: seq<Item>, p: Place)
    requires Placed(rt, items, p)
    ensures Inside(rt, items, p)
  {
    FieldStarts(rt, items, p);
  }
}
