/** All fields of a descriptor, as a function of its bytes: main item by main item, and for each of them
    usage by usage. The iterator hands out exactly these. */
module HidPlaces {
  import opened Widths
  import opened Wrappers
  import opened HidItems
  import opened HidUsage

  /** A field of the main item that was item number `at`, with `left` fields of it still due. */
  datatype Place = Place(at: nat, left: uint16, field: UsageItem)

  /** Where the next usage search starts. */
  datatype Quest = Quest(usagePos: nat, page: uint16, minimum: uint32, maximum: uint32)

  datatype Service = Served(next: Quest) | Exhausted

  function FieldAt(c: Cursor, g: Globals, variable: bool): UsageItem {
    UsageItem(g.id, c.pos, c.minimum / 0x1_0000, if variable then ToUint16(c.minimum) else 0, g.size, variable,
              g.logicalMinimum)
  }

  /** A field is on offer. */
  predicate OnOffer(c: Cursor, variable: bool) { c.available > 0 && (variable || c.required > 0) }

  /** The usages found for the fields that are due. */
  function Searched(d: seq<uint8>, c: Cursor, usagePos: nat, page: uint16): (r: (Cursor, nat, uint16))
    requires usagePos <= |d|
    ensures usagePos <= r.1 <= |d| && (r.0.available > 0 ==> usagePos < r.1)
    ensures r.0.required == c.required && r.0.pos == c.pos && Found(r.0)
  {
    var s := Search(page, c.minimum, c.maximum, false, false, 0, false);
    FoundUsable(d, s, usagePos);
    var (f, p) := Find(d, s, usagePos);
    (Cursor(c.pos, f.minimum, f.maximum, f.available, c.required, f.range && f.available > 0), p, f.page)
  }

  /** The fields of one main item from here on: as long as usages are on offer they are used, and while
      fields are due more usages are searched for. */
  function Hand(d: seq<uint8>, at: nat, c: Cursor, usagePos: nat, page: uint16, variable: bool, g: Globals)
    : (r: (seq<Place>, Service))
    requires usagePos <= |d|
    ensures r.1.Served? ==> r.1.next.usagePos <= |d|
    decreases |d| - usagePos, if variable then c.available else c.required
  {
    if OnOffer(c, variable) then
      var r := Hand(d, at, Advance(c, g.size, variable), usagePos, page, variable, g);
      ([Place(at, c.required, FieldAt(c, g, variable))] + r.0, r.1)
    else if c.required == 0 then ([], Served(Quest(usagePos, page, c.minimum, c.maximum)))
    else
      var (n, p, pg) := Searched(d, c, usagePos, page);
      if n.available == 0 then ([], Exhausted) else Hand(d, at, n, p, pg, variable, g)
  }

  /** A main item that has fields. */
  predicate Due(rt: ReportType, item: Item, g: Globals) {
    Matches(rt, item) && !Constant(item) && g.count > 0
  }

  function StartOf(g: Globals, q: Quest): Cursor {
    Cursor(ToUint16(g.bits), q.minimum, q.maximum, 0, g.count, false)
  }

  function Onward(q: Quest, item: Item, next: nat, page: uint16): Quest {
    if item.typ == HidItems.Main then q.(usagePos := next, page := page) else q
  }

  /** The fields of all items from position pos on, n items having been read. */
  function PlacesFrom(d: seq<uint8>, rt: ReportType, n: nat, pos: nat, q: Quest, g: Globals): seq<Place>
    requires pos <= |d| && q.usagePos <= |d|
    decreases |d| - pos, 0
  {
    match Parse(d[pos..])
    case None => []
    case Some(item) =>
      var (next, h) := (pos + item.size, After(rt, g, item));
      if Due(rt, item, g) then
        Then(d, rt, n + 1, next, h, Hand(d, n + 1, StartOf(g, q), q.usagePos, q.page, Variable(item), h))
      else PlacesFrom(d, rt, n + 1, next, Onward(q, item, next, h.page), h)
  }

  /** The rest of one main item, and everything behind it unless no usages were found. */
  function Then(d: seq<uint8>, rt: ReportType, n: nat, pos: nat, g: Globals, r: (seq<Place>, Service)): seq<Place>
    requires pos <= |d| && (r.1.Served? ==> r.1.next.usagePos <= |d|)
    decreases |d| - pos, 1
  {
    match r.1
    case Served(q) => r.0 + PlacesFrom(d, rt, n, pos, q, g)
    case Exhausted => r.0
  }

  function PlacesOf(d: seq<uint8>, rt: ReportType): seq<Place> {
    PlacesFrom(d, rt, 0, 0, Quest(0, 0, 0, 0), Fold(rt, []))
  }

  function Fields(places: seq<Place>): (fields: seq<UsageItem>)
    ensures |fields| == |places|
  {
    seq(|places|, i requires 0 <= i < |places| => places[i].field)
  }

  // ----- Single steps

  lemma HandOne(d: seq<uint8>, at: nat, c: Cursor, usagePos: nat, page: uint16, variable: bool, g: Globals)
    requires usagePos <= |d| && OnOffer(c, variable)
    ensures var r := Hand(d, at, Advance(c, g.size, variable), usagePos, page, variable, g);
            Hand(d, at, c, usagePos, page, variable, g) == ([Place(at, c.required, FieldAt(c, g, variable))] + r.0, r.1)
  {
    hide Advance, Find;
  }

  lemma HandIdle(d: seq<uint8>, at: nat, c: Cursor, usagePos: nat, page: uint16, variable: bool, g: Globals)
    requires usagePos <= |d|
    ensures c.available == 0 && c.required == 0 ==>
      Hand(d, at, c, usagePos, page, variable, g) == ([], Served(Quest(usagePos, page, c.minimum, c.maximum)))
  {
    hide Advance, Find;
  }

  lemma HandSearch(d: seq<uint8>, at: nat, c: Cursor, usagePos: nat, page: uint16, variable: bool, g: Globals)
    requires usagePos <= |d| && c.available == 0 && c.required > 0
    ensures var (n, p, pg) := Searched(d, c, usagePos, page);
            Hand(d, at, c, usagePos, page, variable, g)
            == if n.available == 0 then ([], Exhausted) else Hand(d, at, n, p, pg, variable, g)
  {
    hide Advance, Find;
  }

  lemma PlacesStep(d: seq<uint8>, rt: ReportType, n: nat, pos: nat, q: Quest, g: Globals, item: Item)
    requires pos <= |d| && q.usagePos <= |d| && Parse(d[pos..]) == Some(item)
    ensures var (next, h) := (pos + item.size, After(rt, g, item));
            next <= |d| && PlacesFrom(d, rt, n, pos, q, g) ==
              if Due(rt, item, g) then
                Then(d, rt, n + 1, next, h, Hand(d, n + 1, StartOf(g, q), q.usagePos, q.page, Variable(item), h))
              else PlacesFrom(d, rt, n + 1, next, Onward(q, item, next, h.page), h)
  {
    hide Hand, After, Due, Parse, StartOf;
  }

  /** A main item without fields of the wanted type uses up the usages before it, and what comes behind it starts with
      the current usage page. */
  lemma WithoutFields(d: seq<uint8>, rt: ReportType, n: nat, pos: nat, q: Quest, g: Globals, item: Item)
    requires pos <= |d| && q.usagePos <= |d| && Parse(d[pos..]) == Some(item) && item.typ == HidItems.Main
    requires !Matches(rt, item) || item.value % 2 == 1 || g.count == 0
    ensures pos + item.size <= |d|
    ensures PlacesFrom(d, rt, n, pos, q, g)
            == PlacesFrom(d, rt, n + 1, pos + item.size, q.(usagePos := pos + item.size, page := g.page),
                          if Matches(rt, item) then g.(bits := g.bits + g.size * g.count) else g)
  {
    hide Hand, Parse;
    PlacesStep(d, rt, n, pos, q, g, item);
  }

  lemma PlacesEnd(d: seq<uint8>, rt: ReportType, n: nat, pos: nat, q: Quest, g: Globals)
    requires pos <= |d| && q.usagePos <= |d| && Parse(d[pos..]).None?
    ensures PlacesFrom(d, rt, n, pos, q, g) == []
  {
  }

  // ----- Ranges that fit

  /** No search from here on finds a variable item a range too many for its fields. */
  predicate HandFits(d: seq<uint8>, c: Cursor, usagePos: nat, page: uint16, variable: bool, size: uint8)
    requires usagePos <= |d|
    decreases |d| - usagePos, if variable then c.available else c.required
  {
    if OnOffer(c, variable) then HandFits(d, Advance(c, size, variable), usagePos, page, variable, size)
    else if c.required == 0 then true
    else
      var (n, p, pg) := Searched(d, c, usagePos, page);
      n.available == 0 || ((variable ==> Fits(n)) && HandFits(d, n, p, pg, variable, size))
  }

  /** The ranges of all items from position pos on fit. */
  predicate RangesFit(d: seq<uint8>, rt: ReportType, n: nat, pos: nat, q: Quest, g: Globals)
    requires pos <= |d| && q.usagePos <= |d|
    decreases |d| - pos
  {
    match Parse(d[pos..])
    case None => true
    case Some(item) =>
      var (next, h) := (pos + item.size, After(rt, g, item));
      if Due(rt, item, g) then
        && HandFits(d, StartOf(g, q), q.usagePos, q.page, Variable(item), h.size)
        && match Hand(d, n + 1, StartOf(g, q), q.usagePos, q.page, Variable(item), h).1
           case Served(r) => RangesFit(d, rt, n + 1, next, r, h)
           case Exhausted => true
      else RangesFit(d, rt, n + 1, next, Onward(q, item, next, h.page), h)
  }

  predicate AllRangesFit(d: seq<uint8>, rt: ReportType) {
    RangesFit(d, rt, 0, 0, Quest(0, 0, 0, 0), Fold(rt, []))
  }

  /** What is on offer fits. */
  predicate Calm(c: Cursor, variable: bool) {
    Found(c) && (c.available > 0 ==> c.required > 0 && (variable ==> Fits(c)))
  }

  predicate AllDue(places: seq<Place>) {
    forall i :: 0 <= i < |places| ==> places[i].left > 0
  }

  lemma AllDueCons(p: Place, places: seq<Place>)
    ensures AllDue([p] + places) <==> p.left > 0 && AllDue(places)
  {
    if AllDue([p] + places) {
      assert ([p] + places)[0] == p;
      assert forall i :: 0 <= i < |places| ==> ([p] + places)[i + 1] == places[i];
    }
  }

  lemma AllDueConcat(a: seq<Place>, b: seq<Place>)
    ensures AllDue(a + b) <==> AllDue(a) && AllDue(b)
  {
    if AllDue(a + b) {
      assert forall i :: 0 <= i < |a| ==> (a + b)[i] == a[i];
      assert forall i :: 0 <= i < |b| ==> (a + b)[|a| + i] == b[i];
    }
  }

  lemma CalmStep(c: Cursor, variable: bool, size: uint8)
    requires Calm(c, variable) && OnOffer(c, variable)
    ensures var n := Advance(c, size, variable);
            && Calm(n, variable) && (n.available > 0 ==> n.required == c.required - 1)
            && (n.required == c.required - 1 || (variable && n.required == 0 && n.minimum > n.maximum))
  {
    if variable {
      AdvanceKeepsFits(c, size);
    } else {
      AdvanceCounts(c, size, variable);
    }
  }

  /** Usages that do not fit lead to a field that is not due. */
  lemma {:induction false} Misfit(d: seq<uint8>, at: nat, c: Cursor, usagePos: nat, page: uint16, g: Globals)
    requires usagePos <= |d| && c.available > 0 && c.required > 0 && Found(c) && !Fits(c)
    ensures !AllDue(Hand(d, at, c, usagePos, page, true, g).0)
    decreases c.available
  {
    var n := Advance(c, g.size, true);
    AdvanceKeepsMisfit(c, g.size);
    AdvanceCounts(c, g.size, true);
    HandOne(d, at, c, usagePos, page, true, g);
    hide Hand, Advance, Fits, Found;
    AllDueCons(Place(at, c.required, FieldAt(c, g, true)), Hand(d, at, n, usagePos, page, true, g).0);
    if n.required == 0 {
      HandOne(d, at, n, usagePos, page, true, g);
      AllDueCons(Place(at, 0, FieldAt(n, g, true)), Hand(d, at, Advance(n, g.size, true), usagePos, page, true, g).0);
    } else {
      Misfit(d, at, n, usagePos, page, g);
    }
  }

  /** The fields of one main item are all due exactly when the usages found for them fit. */
  lemma {:induction false} HandDueIff(d: seq<uint8>, at: nat, c: Cursor, usagePos: nat, page: uint16,
                                      variable: bool, g: Globals)
    requires usagePos <= |d| && Calm(c, variable)
    ensures HandFits(d, c, usagePos, page, variable, g.size)
            <==> AllDue(Hand(d, at, c, usagePos, page, variable, g).0)
    decreases |d| - usagePos, if variable then c.available else c.required
  {
    hide Advance, Fits, Found, Find;
    if OnOffer(c, variable) {
      var n := Advance(c, g.size, variable);
      CalmStep(c, variable, g.size);
      AdvanceCounts(c, g.size, variable);
      HandDueIff(d, at, n, usagePos, page, variable, g);
      AllDueCons(Place(at, c.required, FieldAt(c, g, variable)), Hand(d, at, n, usagePos, page, variable, g).0);
    } else if c.required > 0 {
      var (n, p, pg) := Searched(d, c, usagePos, page);
      if n.available > 0 {
        if variable && !Fits(n) {
          Misfit(d, at, n, p, pg, g);
        } else {
          HandDueIff(d, at, n, p, pg, variable, g);
        }
      }
    }
  }

  lemma {:induction false} PlacesDueIff(d: seq<uint8>, rt: ReportType, n: nat, pos: nat, q: Quest, g: Globals)
    requires pos <= |d| && q.usagePos <= |d|
    ensures RangesFit(d, rt, n, pos, q, g) <==> AllDue(PlacesFrom(d, rt, n, pos, q, g))
    decreases |d| - pos
  {
    hide Hand, HandFits, AllDue, After, Matches, Constant, Variable;
    if Parse(d[pos..]).Some? {
      var item := Parse(d[pos..]).value;
      hide Parse;
      var next, h := pos + item.size, After(rt, g, item);
      if Due(rt, item, g) {
        var r := Hand(d, n + 1, StartOf(g, q), q.usagePos, q.page, Variable(item), h);
        HandDueIff(d, n + 1, StartOf(g, q), q.usagePos, q.page, Variable(item), h);
        if r.1.Served? {
          PlacesDueIff(d, rt, n + 1, next, r.1.next, h);
          AllDueConcat(r.0, PlacesFrom(d, rt, n + 1, next, r.1.next, h));
        }
      } else {
        PlacesDueIff(d, rt, n + 1, next, Onward(q, item, next, h.page), h);
      }
    } else {
      AllDueNone();
    }
  }

  lemma AllDueNone()
    ensures AllDue([])
  {
  }

  /** A field is handed out that is not due exactly when some range is wider than the fields left for it, or
      is upside down and offers more than one usage. */
  lemma AllDueIff(d: seq<uint8>, rt: ReportType)
    ensures AllRangesFit(d, rt) <==> AllDue(PlacesOf(d, rt))
  {
    PlacesDueIff(d, rt, 0, 0, Quest(0, 0, 0, 0), Fold(rt, []));
  }

  // ----- What one main item yields

  /** The fields of a main item come with count, count - 1, ... fields due. Unless the usages run out, that
      goes on down to the last one, or to the end of a range that is shorter than the fields left for it. */
  lemma {:induction false} HandCounts(d: seq<uint8>, at: nat, c: Cursor, usagePos: nat, page: uint16,
                                      variable: bool, g: Globals)
    requires usagePos <= |d| && Calm(c, variable) && HandFits(d, c, usagePos, page, variable, g.size)
    ensures var r := Hand(d, at, c, usagePos, page, variable, g);
            && |r.0| <= c.required
            && (forall i :: 0 <= i < |r.0| ==> r.0[i].at == at && r.0[i].left == c.required - i)
            && (r.1.Served? ==> |r.0| == c.required || (variable && r.1.next.minimum > r.1.next.maximum))
    decreases |d| - usagePos, if variable then c.available else c.required
  {
    hide Advance, Fits, Found, Find;
    if OnOffer(c, variable) {
      var n := Advance(c, g.size, variable);
      CalmStep(c, variable, g.size);
      AdvanceCounts(c, g.size, variable);
      HandCounts(d, at, n, usagePos, page, variable, g);
      HandIdle(d, at, n, usagePos, page, variable, g);
    } else if c.required > 0 {
      var (n, p, pg) := Searched(d, c, usagePos, page);
      if n.available > 0 {
        HandCounts(d, at, n, p, pg, variable, g);
      }
    }
  }

  /** If usages are found for a main item at all, its first field is handed out. */
  lemma HandStarts(d: seq<uint8>, at: nat, c: Cursor, usagePos: nat, page: uint16, variable: bool, g: Globals)
    requires usagePos <= |d| && c.available == 0 && c.required > 0
    ensures var r := Hand(d, at, c, usagePos, page, variable, g); r.0 != [] || r.1 == Exhausted
  {
    HandSearch(d, at, c, usagePos, page, variable, g);
    var (n, p, pg) := Searched(d, c, usagePos, page);
    if n.available > 0 {
      HandOne(d, at, n, p, pg, variable, g);
    }
  }
}
