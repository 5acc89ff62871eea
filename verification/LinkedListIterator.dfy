/** The list iterator, which stays usable when the element it stands on is taken out of the list. */
module LinkedListIterator {
  import opened LinkedList

  class ListIterator {
    var advanceOnNext: bool
    var prev: Node
    var curr: Node?

    constructor (list: Node, ghost c: seq<Node>)
      requires Linked(c) && list == c[0]
      ensures Between(c, 0)
    {
      advanceOnNext := false;
      prev := list;
      curr := list.next;
      new;
      NextOf(c, 0);
    }

    /** Nothing current: c[k + 1] comes next. */
    ghost predicate Between(c: seq<Node>, k: nat)
      reads this, c
    {
      && Linked(c) && k < |c| && prev == c[k]
      && if advanceOnNext then curr != null && curr !in c else curr == c[k].next
    }

    /** Standing on c[k + 1]. */
    ghost predicate On(c: seq<Node>, k: nat)
      reads this, c
    {
      && Linked(c) && k + 1 < |c| && prev == c[k] && advanceOnNext && curr == c[k + 1]
    }

    /** Where the iterator is, and how many elements of c it has behind it. */
    ghost predicate At(c: seq<Node>, k: nat, on: bool)
      reads this, c
    {
      if on then k > 0 && On(c, k - 1) else Between(c, k)
    }

    method HasNext(ghost c: seq<Node>, ghost k: nat, ghost on: bool) returns (more: bool)
      requires At(c, k, on)
      ensures more == (k + 1 < |c|)
    {
      NextOf(c, k);
      if on {
        NextOf(c, k - 1);
      }
      if !advanceOnNext {
        return curr != null;
      }
      if prev.next != curr {
        return prev.next != null;
      }
      return curr.next != null;
    }

    /** Steps onto the next element. */
    method Next(ghost c: seq<Node>, ghost k: nat, ghost on: bool) returns (item: Node)
      requires At(c, k, on) && k + 1 < |c|
      modifies this
      ensures On(c, k) && item == c[k + 1]
    {
      NextOf(c, k);
      if on {
        NextOf(c, k - 1);
      }
      if advanceOnNext {
        if prev.next == curr {
          prev := curr;
          curr := curr.next;
        } else {
          curr := prev.next;
        }
      } else {
        advanceOnNext := true;
      }
      item := curr;
    }

    /** Takes the current element out of the list. */
    method Remove(ghost c: seq<Node>, ghost k: nat)
      requires On(c, k)
      modifies this, prev
      ensures Between(Without(c, k + 1), k) && !advanceOnNext
    {
      NextOf(c, k);
      NextOf(c, k + 1);
      curr := curr.next;
      prev.next := curr;
      advanceOnNext := false;
    }
  }

  /** What the body of an iteration does with its element. */
  datatype Choice = Keep | RemoveFromList | RemoveThroughIterator

  ghost function Kept(choose: Node -> Choice): Node -> bool {
    (n: Node) => choose(n) == Keep
  }

  /** The body of an iteration: both ways to take out the current element leave the iterator usable. */
  method Treat(list: Node, it: ListIterator, item: Node, choice: Choice, ghost c: seq<Node>, ghost k: nat)
    requires it.On(c, k) && list == c[0] && item == c[k + 1]
    modifies it, c
    ensures if choice == Keep then it.At(c, k + 1, true) else it.At(Without(c, k + 1), k, false)
  {
    match choice {
      case Keep =>
      case RemoveFromList =>
        var removed, at := LinkedList.Remove(list, item, c);
      case RemoveThroughIterator =>
        it.Remove(c, k);
    }
  }

  method VisitNext(list: Node, it: ListIterator, choose: Node -> Choice,
                   ghost c: seq<Node>, ghost k: nat, ghost on: bool)
    returns (item: Node)
    requires it.At(c, k, on) && k + 1 < |c| && list == c[0]
    modifies it, c
    ensures item == c[k + 1]
    ensures if choose(item) == Keep then it.At(c, k + 1, true) else it.At(Without(c, k + 1), k, false)
  {
    item := it.Next(c, k, on);
    Treat(list, it, item, choose(item), c, k);
  }

  /** The list when the elements before c[n] have been treated. */
  ghost function Remaining(p: Node -> bool, c: seq<Node>, n: nat): seq<Node>
    requires 1 <= n <= |c|
  {
    c[..1] + Filter(p, c[1..n]) + c[n..]
  }

  lemma RemainingStep(p: Node -> bool, c: seq<Node>, n: nat)
    requires 1 <= n < |c|
    ensures var (d, k) := (Remaining(p, c, n), |Filter(p, c[1..n])|);
            && |d| > k + 1 && d[0] == c[0] && d[k + 1] == c[n]
            && Remaining(p, c, n + 1) == (if p(c[n]) then d else Without(d, k + 1))
            && |Filter(p, c[1..n + 1])| == (if p(c[n]) then k + 1 else k)
  {
    FilterAppend(p, c[1..n], c[n]);
    hide Filter;
    assert c[1..n + 1] == c[1..n] + [c[n]];
    TakeOne(c[..1], Filter(p, c[1..n]), c, n);
  }

  lemma TakeOne(a: seq<Node>, f: seq<Node>, c: seq<Node>, n: nat)
    requires n < |c| && |a| == 1
    ensures (a + f + c[n..])[|f| + 1] == c[n]
    ensures a + f + c[n..] == a + (f + [c[n]]) + c[n + 1..]
    ensures Without(a + f + c[n..], |f| + 1) == a + f + c[n + 1..]
  {
  }

  lemma RemainingWithin(p: Node -> bool, c: seq<Node>, n: nat)
    requires 1 <= n <= |c|
    ensures forall i :: 0 <= i < |Remaining(p, c, n)| ==> Remaining(p, c, n)[i] in c
  {
    forall x | x in Filter(p, c[1..n])
      ensures x in c
    {
      FilterMembers(p, c[1..n], x);
    }
  }

  lemma RemainingEnds(p: Node -> bool, c: seq<Node>)
    requires c != []
    ensures Remaining(p, c, 1) == c && Filter(p, c[1..1]) == []
    ensures Remaining(p, c, |c|) == [c[0]] + Filter(p, c[1..])
  {
    assert c[1..|c|] == c[1..] && c[|c|..] == [] && c[..1] == [c[0]];
  }

  lemma RemainingLength(p: Node -> bool, c: seq<Node>, n: nat)
    requires 1 <= n <= |c|
    ensures |Remaining(p, c, n)| == 1 + |Filter(p, c[1..n])| + |c| - n
  {
  }

  /** The elements before c[n] have been treated. */
  ghost predicate Treated(it: ListIterator, p: Node -> bool, c: seq<Node>, n: nat, on: bool)
    requires 1 <= n <= |c|
    reads it, Remaining(p, c, n)
  {
    it.At(Remaining(p, c, n), |Filter(p, c[1..n])|, on)
  }

  method Turn(list: Node, it: ListIterator, choose: Node -> Choice, ghost c: seq<Node>, ghost n: nat, ghost on0: bool)
    returns (item: Node, ghost on: bool)
    requires 1 <= n < |c| && list == c[0] && Treated(it, Kept(choose), c, n, on0)
    modifies it, c
    ensures item == c[n] && Treated(it, Kept(choose), c, n + 1, on)
  {
    hide Linked, Filter, Remaining, Without;
    ghost var p := Kept(choose);
    RemainingStep(p, c, n);
    RemainingWithin(p, c, n);
    item := VisitNext(list, it, choose, Remaining(p, c, n), |Filter(p, c[1..n])|, on0);
    on := choose(item) == Keep;
  }

  method MoreToVisit(it: ListIterator, ghost p: Node -> bool, ghost c: seq<Node>, ghost n: nat, ghost on: bool)
    returns (more: bool)
    requires 1 <= n <= |c| && Treated(it, p, c, n, on)
    ensures more == (n < |c|) && Treated(it, p, c, n, on)
  {
    RemainingLength(p, c, n);
    RemainingWithin(p, c, n);
    hide Remaining, Filter;
    more := it.HasNext(Remaining(p, c, n), |Filter(p, c[1..n])|, on);
  }

  /** Iterates over a list and treats every element as chosen: each is visited once, in order, and
      exactly those that are kept stay in the list. */
  method Iterate(list: Node, choose: Node -> Choice, ghost c: seq<Node>) returns (visited: seq<Node>)
    requires Linked(c) && list == c[0]
    modifies c
    ensures visited == c[1..]
    ensures Linked([list] + Filter(Kept(choose), c[1..]))
  {
    ghost var p := Kept(choose);
    var it := new ListIterator(list, c);
    visited := [];
    ghost var n, on := 1, false;
    StartsTreated(it, p, c);
    hide Linked, Filter, Remaining, Treated, Kept;
    var more := MoreToVisit(it, p, c, n, on);
    while more
      invariant 1 <= n <= |c| && visited == c[1..n] && fresh(it) && more == (n < |c|)
      invariant Treated(it, p, c, n, on)
      decreases |c| - n
    {
      var item;
      item, on := Turn(list, it, choose, c, n, on);
      visited := visited + [item];
      n := n + 1;
      more := MoreToVisit(it, p, c, n, on);
    }
    EndsTreated(it, p, c, on);
    assert c[1..|c|] == c[1..];
  }

  lemma StartsTreated(it: ListIterator, p: Node -> bool, c: seq<Node>)
    requires c != [] && it.At(c, 0, false)
    ensures Treated(it, p, c, 1, false)
  {
    RemainingEnds(p, c);
  }

  lemma EndsTreated(it: ListIterator, p: Node -> bool, c: seq<Node>, on: bool)
    requires c != [] && Treated(it, p, c, |c|, on)
    ensures Linked([c[0]] + Filter(p, c[1..]))
  {
    hide Filter;
    RemainingEnds(p, c);
  }
}
