/** The separate computation of a report's size, and when it is the size of the report. */
module HidReportSize {
  import opened Widths
  import opened Wrappers
  import opened HidItems
  import opened HidUsage
  import opened HidLayout

  /** The variables of the pass. They are C ints: nothing is cut to 8 or 16 bits. */
  datatype Pass = Pass(total: int, size: int, count: int, id: int)

  function Start(): Pass { Pass(0, 0, 0, UNDEFINED) }

  function PassItem(rt: ReportType, id: uint16, s: Pass, item: Item): Pass {
    if item.typ == Global then
      if item.tag == REPORT_ID then s.(id := item.value)
      else if item.tag == REPORT_COUNT then s.(count := item.value)
      else if item.tag == REPORT_SIZE then s.(size := item.value)
      else s
    else if s.id == id && Matches(rt, item) then s.(total := s.total + s.count * s.size)
    else s
  }

  /** The report has started and its id has been left. */
  predicate Over(id: uint16, s: Pass) { s.total > 0 && s.id != id }

  /** The pass over items; true if it stopped early. */
  function PassAll(rt: ReportType, id: uint16, s: Pass, items: seq<Item>): (Pass, bool)
    decreases |items|
  {
    if items == [] then (s, false)
    else
      var t := PassItem(rt, id, s, items[0]);
      if Over(id, t) then (t, true) else PassAll(rt, id, t, items[1..])
  }

  /** Division in C truncates toward zero. */
  function Bytes(bits: int): int {
    if bits + 7 >= 0 then (bits + 7) / 8 else -(-(bits + 7) / 8)
  }

  /** btstack_hid_get_report_size_for_id */
  method ReportSizeForId(id: uint16, rt: ReportType, d: seq<uint8>) returns (bytes: int)
    requires |d| < 0x1_0000
    ensures var (s, early) := PassAll(rt, id, Start(), ItemsOf(d));
            bytes == if early || WellFormed(d) then Bytes(s.total) else 0
    ensures var (s, early) := PassAll(rt, id, Start(), ItemsOf(d));
            if !early && !WellFormed(d) then bytes == 0
            else if s.total >= 0 then s.total <= 8 * bytes < s.total + 8
            else if s.total + 7 >= 0 then bytes == 0
            else s.total + 7 <= 8 * bytes < s.total + 15
    ensures var (s, early) := PassAll(rt, id, Start(), ItemsOf(d));
            AllNarrow(ItemsOf(d)) && Contiguous(rt, id, ItemsOf(d)) && (early || WellFormed(d)) ==>
              TotalBits(rt, id, ItemsOf(d)) <= 8 * bytes < TotalBits(rt, id, ItemsOf(d)) + 8
  {
    hide ItemsOf, WellFormed, Parse, Matches, AllNarrow, Contiguous, TotalBits;
    if AllNarrow(ItemsOf(d)) && Contiguous(rt, id, ItemsOf(d)) {
      SizeIsTotal(rt, id, ItemsOf(d));
    }
    var total: int, size: int, count: int, currentId: int := 0, 0, 0, UNDEFINED;
    var cursor := new ItemIterator(d);
    assert d[0..] == d;
    ghost var all := PassAll(rt, id, Start(), ItemsOf(d));
    while true
      invariant cursor.Valid() && fresh(cursor) && cursor.d == d && !cursor.ready
      invariant WellFormed(d) == WellFormed(d[cursor.pos..])
      invariant PassAll(rt, id, Pass(total, size, count, currentId), cursor.Ahead()) == all
      decreases |d| - cursor.pos
    {
      var more := cursor.HasMore();
      if !more { break; }
      ghost var s, ahead := Pass(total, size, count, currentId), cursor.Ahead();
      var item := cursor.GetItem();
      PassOne(rt, id, s, item, cursor.Ahead());
      if item.typ == Global {
        if item.tag == REPORT_ID {
          currentId := item.value;
        } else if item.tag == REPORT_COUNT {
          count := item.value;
        } else if item.tag == REPORT_SIZE {
          size := item.value;
        }
      } else if currentId == id && Matches(rt, item) {
        total := total + count * size;
      }
      if total > 0 && currentId != id {
        return Bytes(total);
      }
    }
    AtEnd(d, cursor.pos);
    bytes := if cursor.valid then Bytes(total) else 0;
  }

  lemma PassOne(rt: ReportType, id: uint16, s: Pass, item: Item, rest: seq<Item>)
    ensures var t := PassItem(rt, id, s, item);
            PassAll(rt, id, s, [item] + rest) == if Over(id, t) then (t, true) else PassAll(rt, id, t, rest)
  {
    assert ([item] + rest)[1..] == rest;
  }

  /** Report id, size and count as written, whatever their width, one input item, and another report id: the report has
      size times count bits, and its end is noticed unless there are none. */
  lemma OneReport(id: uint16, size: Item, count: Item, input: Item, next: Item)
    requires size.typ == count.typ == next.typ == Global && size.tag == 7 && count.tag == 9 && next.tag == 8
    requires input.typ == HidItems.Main && input.tag == 8 && next.value != id
    ensures var start := Item(Global, 8, id, 2, 3);
            var (s, early) := PassAll(Input, id, Start(), [start, size, count, input, next]);
            s.total == size.value * count.value && (early <==> size.value * count.value > 0)
  {
    var start := Item(Global, 8, id, 2, 3);
    var a, b, c := Pass(0, 0, 0, id), Pass(0, size.value, 0, id), Pass(0, size.value, count.value, id);
    hide PassAll;
    PassOne(Input, id, Start(), start, [size, count, input, next]);
    PassOne(Input, id, a, size, [count, input, next]);
    PassOne(Input, id, b, count, [input, next]);
    PassOne(Input, id, c, input, [next]);
    PassOne(Input, id, c.(total := size.value * count.value), next, []);
    PassNone(Input, id, c.(total := size.value * count.value, id := next.value));
    assert [start] + [size, count, input, next] == [start, size, count, input, next];
    assert [size] + [count, input, next] == [size, count, input, next];
    assert [count] + [input, next] == [count, input, next];
    assert [input] + [next] == [input, next] && [next] + [] == [next];
    assert size.value * count.value == count.value * size.value;
  }

  lemma PassNone(rt: ReportType, id: uint16, s: Pass)
    ensures PassAll(rt, id, s, []) == (s, false)
  {
  }

  lemma AtEnd(d: seq<uint8>, pos: nat)
    requires pos <= |d| && Parse(d[pos..]).None?
    ensures WellFormed(d[pos..]) <==> pos == |d|
    ensures ItemsOf(d[pos..]) == []
  {
  }

  // ----- When it is the size of the report

  /** Global values stay within the 8 and 16 bits the iterator has for them. */
  predicate Narrow(item: Item) {
    item.typ == Global ==>
      && (item.tag == REPORT_SIZE || item.tag == REPORT_COUNT ==> 0 <= item.value < 0x100)
      && (item.tag == REPORT_ID ==> 0 <= item.value < 0x1_0000)
  }

  predicate AllNarrow(items: seq<Item>) {
    forall i :: 0 <= i < |items| ==> Narrow(items[i])
  }

  /** Nothing is added to a report after its id was left. */
  lemma {:induction false} TotalAfterLeaving(rt: ReportType, id: uint16, items: seq<Item>, m: nat, n: nat)
    requires Contiguous(rt, id, items) && m <= n <= |items| && Left(rt, id, items[..m])
    ensures TotalBits(rt, id, items[..n]) == TotalBits(rt, id, items[..m])
    decreases n - m
  {
    if m < n {
      PrefixStep(items, m);
      TotalAppend(rt, id, items[..m], items[m]);
      StaysLeft(rt, id, items, m, m + 1);
      TotalAfterLeaving(rt, id, items, m + 1, n);
    }
  }

  /** The pass agrees with the running globals of the iterator. */
  predicate Agrees(rt: ReportType, id: uint16, seen: seq<Item>, s: Pass) {
    var g := Fold(rt, seen);
    s == Pass(TotalBits(rt, id, seen), g.size, g.count, g.id)
  }

  lemma AgreesStep(rt: ReportType, id: uint16, seen: seq<Item>, s: Pass, item: Item)
    requires Agrees(rt, id, seen, s) && Narrow(item)
    ensures Agrees(rt, id, seen + [item], PassItem(rt, id, s, item))
  {
    FoldAppend(rt, seen, item);
    TotalAppend(rt, id, seen, item);
    hide Fold, TotalBits;
  }

  lemma {:induction false} PassIsTotal(rt: ReportType, id: uint16, items: seq<Item>, n: nat, s: Pass)
    requires n <= |items| && AllNarrow(items) && Contiguous(rt, id, items) && Agrees(rt, id, items[..n], s)
    ensures PassAll(rt, id, s, items[n..]).0.total == TotalBits(rt, id, items)
    decreases |items| - n
  {
    hide Fold, TotalBits, Contiguous, Matches, PassItem;
    if n == |items| {
      assert items[..n] == items && items[n..] == [];
    } else {
      var t := PassItem(rt, id, s, items[n]);
      PrefixStep(items, n);
      AgreesStep(rt, id, items[..n], s, items[n]);
      assert items[n..] == [items[n]] + items[n + 1..];
      PassOne(rt, id, s, items[n], items[n + 1..]);
      if Over(id, t) {
        TotalAfterLeaving(rt, id, items, n + 1, |items|);
        assert items[..|items|] == items;
      } else {
        PassIsTotal(rt, id, items, n + 1, t);
      }
    }
  }

  /** If global values are narrow and the report occupies one run of the descriptor, the pass finds its bits. */
  lemma SizeIsTotal(rt: ReportType, id: uint16, items: seq<Item>)
    requires AllNarrow(items) && Contiguous(rt, id, items)
    ensures PassAll(rt, id, Start(), items).0.total == TotalBits(rt, id, items)
  {
    assert items[..0] == [] && items[0..] == items;
    PassIsTotal(rt, id, items, 0, Start());
  }
}
