/** Intrusive singly linked lists. The variable that holds a list has the layout of an item, so the
    list itself is the node before its first item. */
module LinkedList {
  class Node {
    var next: Node?

    constructor ()
      ensures next == null
    {
      next := null;
    }
  }

  /** The list c[0] holds the items c[1..], each of them once. */
  ghost predicate Linked(c: seq<Node>)
    reads c
  {
    && c != []
    && (forall i :: 0 <= i < |c| - 1 ==> c[i].next == c[i + 1])
    && c[|c| - 1].next == null
    && Distinct(c)
  }

  ghost predicate Distinct(c: seq<Node>) {
    forall i, j :: 0 <= i < j < |c| ==> c[i] != c[j]
  }

  lemma NextOf(c: seq<Node>, i: nat)
    requires Linked(c) && i < |c|
    ensures c[i].next == if i + 1 < |c| then c[i + 1] else null
  {
  }

  ghost function Without(c: seq<Node>, k: nat): (r: seq<Node>)
    requires k < |c|
    ensures |r| == |c| - 1
  {
    c[..k] + c[k + 1..]
  }

  /** The items before k stay where they are and those behind it move up. */
  lemma WithoutAt(c: seq<Node>, k: nat, i: nat)
    requires k < |c| && i < |c| - 1
    ensures Without(c, k)[i] == if i < k then c[i] else c[i + 1]
  {
  }

  /** The items a predicate holds for, in order. */
  ghost function Filter(p: Node -> bool, s: seq<Node>): (r: seq<Node>)
  {
    if s == [] then []
    else Filter(p, s[..|s| - 1]) + if p(s[|s| - 1]) then [s[|s| - 1]] else []
  }

  ghost function Not(p: Node -> bool): Node -> bool {
    (n: Node) => !p(n)
  }

  lemma FilterAppend(p: Node -> bool, s: seq<Node>, x: Node)
    ensures Filter(p, s + [x]) == Filter(p, s) + if p(x) then [x] else []
  {
    assert (s + [x])[..|s|] == s;
  }

  lemma {:induction false} FilterMembers(p: Node -> bool, s: seq<Node>, x: Node)
    ensures x in Filter(p, s) <==> x in s && p(x)
  {
    if s != [] {
      FilterMembers(p, s[..|s| - 1], x);
      assert s == s[..|s| - 1] + [s[|s| - 1]];
    }
  }

  method Add(list: Node, item: Node, ghost c: seq<Node>) returns (added: bool)
    requires Linked(c) && c[0] == list && item != list
    modifies list, item
    ensures added == (item !in c)
    ensures added ==> Linked([list, item] + c[1..])
    ensures !added ==> Linked(c) && unchanged(list, item)
  {
    var it := list.next;
    ghost var i := 1;
    while it != null
      invariant 1 <= i <= |c| && it == if i < |c| then c[i] else null
      invariant item !in c[..i]
      decreases |c| - i
    {
      if it == item {
        return false;
      }
      it, i := it.next, i + 1;
    }
    item.next := list.next;
    list.next := item;
    return true;
  }

  method AddTail(list: Node, item: Node, ghost c: seq<Node>) returns (added: bool)
    requires Linked(c) && c[0] == list && item != list
    modifies item, c
    ensures added == (item !in c)
    ensures added ==> Linked(c + [item])
    ensures !added ==> Linked(c) && unchanged(item, c)
  {
    var it := list;
    ghost var i := 0;
    while it.next != null
      invariant 0 <= i < |c| && it == c[i] && item !in c[..i + 1]
      invariant unchanged(item, c)
      decreases |c| - i
    {
      NextOf(c, i);
      if it.next == item {
        return false;
      }
      it, i := it.next, i + 1;
    }
    NextOf(c, i);
    assert c == c[..i + 1];
    item.next := null;
    it.next := item;
    return true;
  }

  /** Takes an item out; at says where it was. */
  method Remove(list: Node, item: Node?, ghost c: seq<Node>) returns (removed: bool, ghost at: nat)
    requires Linked(c) && c[0] == list && item != list
    modifies c
    ensures removed == (item in c)
    ensures removed ==> 0 < at < |c| && c[at] == item && Linked(Without(c, at)) && item.next == old(item.next)
    ensures !removed ==> Linked(c) && unchanged(c)
  {
    at := 0;
    if item == null { return false, 0; }
    var it: Node? := list;
    while it != null
      invariant 0 <= at <= |c| && it == if at < |c| then c[at] else null
      invariant item !in c[..at + if at < |c| then 1 else 0]
      invariant unchanged(c)
      decreases |c| - at
    {
      if it.next == item {
        assert c[at].next == c[at + 1];
        it.next := item.next;
        return true, at + 1;
      }
      it, at := it.next, at + 1;
    }
    return false, 0;
  }

  method Pop(list: Node, ghost c: seq<Node>) returns (item: Node?)
    requires Linked(c) && c[0] == list
    modifies list
    ensures if |c| == 1 then item == null && Linked(c) else item == c[1] && Linked(Without(c, 1))
  {
    item := list.next;
    if item == null { return; }
    list.next := item.next;
  }

  method Count(list: Node, ghost c: seq<Node>) returns (n: nat)
    requires Linked(c) && c[0] == list
    ensures n == |c| - 1
  {
    var it := list;
    n := 0;
    while it.next != null
      invariant n < |c| && it == c[n]
      decreases |c| - n
    {
      it, n := it.next, n + 1;
    }
    NextOf(c, n);
  }

  /** Together, the matches and the others are the items, each once. */
  lemma {:induction false} FilterPartition(p: Node -> bool, s: seq<Node>)
    ensures multiset(Filter(p, s)) + multiset(Filter(Not(p), s)) == multiset(s)
  {
    if s != [] {
      var t, x := s[..|s| - 1], s[|s| - 1];
      assert s == t + [x];
      FilterAppend(p, t, x);
      FilterAppend(Not(p), t, x);
      FilterPartition(p, t);
      hide Filter;
    }
  }

  /** Puts a node behind the last one. */
  method Append(tail: Node, node: Node, ghost c: seq<Node>)
    requires Linked(c) && tail == c[|c| - 1] && node !in c && node.next == null
    modifies tail
    ensures Linked(c + [node])
  {
    tail.next := node;
  }

  /** No node in common. */
  ghost predicate Apart(a: seq<Node>, b: seq<Node>) {
    forall x :: x in a ==> x !in b
  }

  ghost predicate ThreeLists(a: seq<Node>, m: seq<Node>, o: seq<Node>)
    reads a, m, o
  {
    Linked(a) && Linked(m) && Linked(o) && Apart(a, m) && Apart(a, o) && Apart(m, o)
  }

  ghost function Picked(chosen: bool, x: Node): seq<Node> {
    if chosen then [x] else []
  }

  /** Moves the first item to the end of one of the two other lists. */
  method MoveOne(input: Node, match0: Node, other0: Node, p: Node -> bool,
                 ghost a: seq<Node>, ghost m: seq<Node>, ghost o: seq<Node>) returns (lastMatch: Node, lastOther: Node)
    requires ThreeLists(a, m, o) && |a| > 1 && |m| > 0 && |o| > 0
    requires input == a[0] && match0 == m[|m| - 1] && other0 == o[|o| - 1]
    modifies input, a[1], match0, other0
    ensures ThreeLists(Without(a, 1), m + Picked(p(a[1]), a[1]), o + Picked(!p(a[1]), a[1]))
    ensures lastMatch == if p(a[1]) then a[1] else match0
    ensures lastOther == if p(a[1]) then other0 else a[1]
  {
    hide Linked;
    NextOf(a, 0);
    Nodes(a, 1);
    Nodes(m, |m| - 1);
    Nodes(o, |o| - 1);
    lastMatch, lastOther := match0, other0;
    var node := input.next;
    Detach(input, node, a);
    if p(node) {
      Append(lastMatch, node, m);
      lastMatch := node;
      assert o + [] == o;
    } else {
      Append(lastOther, node, o);
      lastOther := node;
      assert m + [] == m;
    }
  }

  lemma Nodes(c: seq<Node>, k: nat)
    requires Linked(c) && k < |c|
    ensures c[0] in c && c[k] in c && c[k] !in Without(c, k)
    ensures forall x :: x in Without(c, k) ==> x in c
  {
  }

  /** Moves the items of input into two lists, by predicate. */
  method Split(input: Node, matches: Node, other: Node, p: Node -> bool, ghost c: seq<Node>)
    requires Linked(c) && c[0] == input && matches !in c && other !in c && matches != other
    modifies c, matches, other
    ensures Linked([input])
    ensures Linked([matches] + Filter(p, c[1..]))
    ensures Linked([other] + Filter(Not(p), c[1..]))
  {
    hide Filter, Linked;
    matches.next, other.next := null, null;
    Single(matches);
    Single(other);
    var lastMatch, lastOther := matches, other;
    ghost var a, m, o, i := c, [matches], [other], 1;
    FilterNone(p);
    FilterNone(Not(p));
    NonEmpty(c);
    assert c[1..1] == [] && c == [input] + c[1..];
    while input.next != null
      invariant 1 <= i <= |c| && a == [input] + c[i..] && ThreeLists(a, m, o)
      invariant m == [matches] + Filter(p, c[1..i]) && lastMatch == m[|m| - 1]
      invariant o == [other] + Filter(Not(p), c[1..i]) && lastOther == o[|o| - 1]
      invariant (lastMatch == matches || lastMatch in c) && (lastOther == other || lastOther in c)
      decreases |c| - i
    {
      NextOf(a, 0);
      FilterStep(p, c, i);
      FilterStep(Not(p), c, i);
      lastMatch, lastOther := MoveOne(input, lastMatch, lastOther, p, a, m, o);
      m, o := m + Picked(p(c[i]), c[i]), o + Picked(!p(c[i]), c[i]);
      a, i := Without(a, 1), i + 1;
    }
    NextOf(a, 0);
    assert c[1..i] == c[1..] && a == [input];
    input.next := null;
  }

  lemma NonEmpty(c: seq<Node>)
    requires Linked(c)
    ensures c != []
  {
  }

  lemma Single(x: Node)
    requires x.next == null
    ensures Linked([x])
  {
  }

  lemma FilterNone(p: Node -> bool)
    ensures Filter(p, []) == []
  {
  }

  lemma FilterStep(p: Node -> bool, c: seq<Node>, i: nat)
    requires 1 <= i < |c|
    ensures forall x :: [x] + Filter(p, c[1..i + 1]) == [x] + Filter(p, c[1..i]) + Picked(p(c[i]), c[i])
  {
    FilterAppend(p, c[1..i], c[i]);
    assert c[1..i + 1] == c[1..i] + [c[i]];
  }

  method Detach(input: Node, node: Node, ghost c: seq<Node>)
    requires Linked(c) && |c| > 1 && c[0] == input && c[1] == node
    modifies input, node
    ensures Linked(Without(c, 1)) && node.next == null
  {
    NextOf(c, 1);
    input.next := node.next;
    node.next := null;
  }

  /** Keeps the items the predicate fails for, and hands over the others. */
  method FilterList(input: Node, matches: Node, p: Node -> bool, ghost c: seq<Node>)
    requires Linked(c) && c[0] == input && matches !in c
    modifies c, matches
    ensures Linked([matches] + Filter(p, c[1..]))
    ensures Linked([input] + Filter(Not(p), c[1..]))
  {
    hide Linked, Filter;
    NonEmpty(c);
    Nodes(c, 0);
    assert Without(c, 0) == c[1..];
    var temp := new Node();
    Split(input, matches, temp, p, c);
    ghost var m, o := Filter(p, c[1..]), Filter(Not(p), c[1..]);
    forall x
      ensures x in m || x in o ==> x in c[1..]
    {
      FilterMembers(p, c[1..], x);
      FilterMembers(Not(p), c[1..], x);
    }
    assert input !in [temp] + o && input !in [matches] + m;
    input.next := temp.next;
    Rehang(temp, input, o);
  }

  lemma Rehang(a: Node, b: Node, s: seq<Node>)
    requires Linked([a] + s) && b !in s && b.next == a.next
    ensures Linked([b] + s)
  {
    var c, d := [a] + s, [b] + s;
    assert forall i :: 0 < i < |d| ==> d[i] == c[i];
  }
}
