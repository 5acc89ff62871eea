/** Where the fields of a report lie: disjoint, in order, and within the size of the report. */
module HidLayout {
  import opened Widths
  import opened Wrappers
  import opened HidItems
  import opened HidUsage
  import opened HidPlaces

  /** Bits of all main items of one type and report id. */
  function TotalBits(rt: ReportType, id: uint16, items: seq<Item>): nat {
    if items == [] then 0
    else
      var (before, item) := (items[..|items| - 1], items[|items| - 1]);
      var g := Fold(rt, before);
      TotalBits(rt, id, before) + if Matches(rt, item) && g.id == id then Extent(g.size, g.count) else 0
  }

  lemma TotalAppend(rt: ReportType, id: uint16, items: seq<Item>, item: Item)
    ensures var g := Fold(rt, items);
            TotalBits(rt, id, items + [item])
            == TotalBits(rt, id, items) + if Matches(rt, item) && g.id == id then Extent(g.size, g.count) else 0
  {
    assert (items + [item])[..|items|] == items;
  }

  /** The report has started and its id has been left. */
  predicate Left(rt: ReportType, id: uint16, items: seq<Item>) {
    TotalBits(rt, id, items) > 0 && Fold(rt, items).id != id
  }

  /** Each report occupies one run of the descriptor: an id that was left is not taken up again. */
  predicate Contiguous(rt: ReportType, id: uint16, items: seq<Item>) {
    forall i, j :: 0 <= i <= j <= |items| && Left(rt, id, items[..i]) ==> Left(rt, id, items[..j])
  }

  /** Positions fit the 16 bits of the iterator. */
  predicate Short(rt: ReportType, items: seq<Item>) {
    forall i :: 0 <= i <= |items| ==> Fold(rt, items[..i]).bits < 0x1_0000
  }

  lemma PrefixStep(items: seq<Item>, n: nat)
    requires n < |items|
    ensures items[..n + 1] == items[..n] + [items[n]]
  {
  }

  lemma StaysLeft(rt: ReportType, id: uint16, items: seq<Item>, m: nat, n: nat)
    requires Contiguous(rt, id, items) && m <= n <= |items|
    ensures Left(rt, id, items[..m]) ==> Left(rt, id, items[..n])
  {
  }

  /** While the id is current, the running position is the size of the report so far. */
  lemma {:induction false} BitsAreTotal(rt: ReportType, id: uint16, items: seq<Item>, n: nat)
    requires n <= |items| && Contiguous(rt, id, items) && Fold(rt, items[..n]).id == id
    ensures Fold(rt, items[..n]).bits == TotalBits(rt, id, items[..n])
  {
    if n > 0 {
      BitsStep(rt, id, items, n - 1);
      hide Fold, TotalBits, Extent, Contiguous, Matches;
      if Fold(rt, items[..n - 1]).id == id {
        BitsAreTotal(rt, id, items, n - 1);
      } else {
        StaysLeft(rt, id, items, n - 1, n);
      }
    }
  }

  /** One item: inside the report both sums grow alike; a report that is entered starts from zero. */
  lemma BitsStep(rt: ReportType, id: uint16, items: seq<Item>, n: nat)
    requires n < |items| && Fold(rt, items[..n + 1]).id == id
    ensures var (g, h) := (Fold(rt, items[..n]), Fold(rt, items[..n + 1]));
            && (g.id == id ==> h.bits - g.bits == TotalBits(rt, id, items[..n + 1]) - TotalBits(rt, id, items[..n]))
            && (g.id != id ==> h.bits == 0 && TotalBits(rt, id, items[..n + 1]) == TotalBits(rt, id, items[..n]))
  {
    PrefixStep(items, n);
    FoldAppend(rt, items[..n], items[n]);
    TotalAppend(rt, id, items[..n], items[n]);
    hide Fold, TotalBits, Extent, ToUint16, ToUint8;
  }

  lemma {:induction false} TotalGrows(rt: ReportType, id: uint16, items: seq<Item>, m: nat, n: nat)
    requires m <= n <= |items|
    ensures TotalBits(rt, id, items[..m]) <= TotalBits(rt, id, items[..n])
    decreases n - m
  {
    if m < n {
      PrefixStep(items, m);
      TotalAppend(rt, id, items[..m], items[m]);
      TotalGrows(rt, id, items, m + 1, n);
    }
  }

  /** The field lies at its place in its main item, counted from the end. */
  predicate Placed(rt: ReportType, items: seq<Item>, p: Place) {
    && 0 < p.at <= |items| && Matches(rt, items[p.at - 1])
    && var g := Fold(rt, items[..p.at]);
       && 0 < p.left <= g.count && p.field.size == g.size && p.field.reportId == g.id
       && p.field.bitPos + Extent(g.size, p.left) == g.bits
  }

  predicate Before(p: Place, q: Place) {
    p.at < q.at || (p.at == q.at && p.left > q.left)
  }

  lemma FieldStarts(rt: ReportType, items: seq<Item>, p: Place)
    requires Placed(rt, items, p)
    ensures var g := Fold(rt, items[..p.at - 1]);
            g.id == p.field.reportId && g.bits <= p.field.bitPos
            && p.field.bitPos + p.field.size <= Fold(rt, items[..p.at]).bits
  {
    PrefixStep(items, p.at - 1);
    FoldAppend(rt, items[..p.at - 1], items[p.at - 1]);
    var g := Fold(rt, items[..p.at]);
    ExtentGrows(g.size, p.left, g.count);
    ExtentGrows(g.size, 1, p.left);
  }

  lemma ExtentGrows(size: uint8, m: uint16, n: uint16)
    requires m <= n
    ensures Extent(size, m) <= Extent(size, n) && Extent(size, 1) == size
    ensures m < n ==> Extent(size, m) + size <= Extent(size, n)
  {
    ExtentSplit(size, m, n - m);
    if m < n {
      ExtentSplit(size, 1, n - m - 1);
    }
    hide Extent;
  }

  lemma ExtentSplit(size: uint8, m: uint16, n: uint16)
    requires m + n < 0x1_0000
    ensures Extent(size, m + n) == Extent(size, m) + Extent(size, n) && Extent(size, 1) == size
  {
  }

  /** Fields of one report never overlap, and lie in the report in the order they are handed out. */
  lemma FieldsDisjoint(rt: ReportType, items: seq<Item>, p: Place, q: Place)
    requires Placed(rt, items, p) && Placed(rt, items, q) && Before(p, q)
    requires p.field.reportId == q.field.reportId && Contiguous(rt, p.field.reportId, items)
    ensures p.field.bitPos + p.field.size <= q.field.bitPos
  {
    var id := p.field.reportId;
    hide Extent, Fold, TotalBits, Contiguous, Matches;
    if p.at == q.at {
      ExtentGrows(p.field.size, q.left, p.left);
    } else {
      FieldStarts(rt, items, p);
      FieldStarts(rt, items, q);
      BitsAreTotal(rt, id, items, p.at);
      BitsAreTotal(rt, id, items, q.at - 1);
      TotalGrows(rt, id, items, p.at, q.at - 1);
    }
  }

  /** Every field lies inside the report. */
  lemma FieldInReport(rt: ReportType, items: seq<Item>, p: Place)
    requires Placed(rt, items, p) && Contiguous(rt, p.field.reportId, items)
    ensures p.field.bitPos + p.field.size <= TotalBits(rt, p.field.reportId, items)
  {
    FieldStarts(rt, items, p);
    BitsAreTotal(rt, p.field.reportId, items, p.at);
    TotalGrows(rt, p.field.reportId, items, p.at, |items|);
    assert items[..|items|] == items;
  }

  /** A field that is aligned with the end of its main item lies at its place, if positions fit 16 bits. */
  lemma HandedOut(rt: ReportType, items: seq<Item>, p: Place)
    requires 0 < p.at <= |items| && Matches(rt, items[p.at - 1]) && Short(rt, items)
    requires var g := Fold(rt, items[..p.at]);
             && 0 < p.left <= g.count && p.field.size == g.size && p.field.reportId == g.id
             && ToUint16(p.field.bitPos + Extent(g.size, p.left)) == ToUint16(g.bits)
    ensures Placed(rt, items, p)
  {
    var g := Fold(rt, items[..p.at]);
    PrefixStep(items, p.at - 1);
    FoldAppend(rt, items[..p.at - 1], items[p.at - 1]);
    ExtentGrows(g.size, p.left, g.count);
    assert g.bits < 0x1_0000 && Extent(g.size, p.left) <= g.bits;
    SameMod(p.field.bitPos + Extent(g.size, p.left), g.bits, Extent(g.size, p.left));
  }

  lemma SameMod(a: nat, b: nat, e: nat)
    requires ToUint16(a) == ToUint16(b) && e <= b < 0x1_0000 && e <= a < e + 0x1_0000
    ensures a == b
  {
  }
}
