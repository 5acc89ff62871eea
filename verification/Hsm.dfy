/** The hierarchical state machine itself: handlers are called with events, the super states of the
    target are cached in a path array, and every entry and exit is recorded in a ghost trace. */
module Hsm {
  import opened Wrappers
  import opened HsmTree
  import opened HsmTrace

  class Machine {
    const tree: Tree
    const depth: nat
    const path: array<Option<State>>
    var state: State
    var temp: State
    ghost var trace: seq<Action>

    ghost predicate Shape()
      reads this
    {
      Fits(tree, depth) && path.Length == depth <= 127
    }

    /** Replaying all entries and exits so far gives exactly the chain of the current state. */
    ghost predicate Valid()
      reads this
    {
      Shape() && Leads(tree, TOP, trace, state)
    }

    constructor (tree: Tree, path: array<Option<State>>, depth: nat)
      requires Fits(tree, depth) && path.Length == depth <= 127
      ensures Valid() && state == TOP && trace == [] && this.tree == tree && this.path == path
    {
      this.tree, this.path, this.depth, this.state, this.temp, this.trace := tree, path, depth, TOP, TOP, [];
    }

    // ----- Events sent to a handler

    method GetSuper(h: State) returns (status: Status)
      modifies this`temp
      ensures if h == TOP then status == Ignored && temp == old(temp) else status == Super && temp == tree.parent(h)
    {
      if h == TOP {
        return Ignored;
      }
      temp := tree.parent(h);
      status := Super;
    }

    method Ask(react: Reactions, h: State) returns (status: Status)
      modifies this`temp
      ensures h == TOP ==> status == Ignored
      ensures h != TOP ==> status == match react(h)
                                     case Transit(_) => Tran case ToSuper => Super case Handle => Handled
                                     case Unhandle => Unhandled case Ignore => Ignored
      ensures h != TOP && react(h).Transit? ==> temp == react(h).dest
      ensures h != TOP && react(h).ToSuper? ==> temp == tree.parent(h)
    {
      if h == TOP {
        return Ignored;
      }
      match react(h) {
        case Transit(d) => temp := d; status := Tran;
        case ToSuper => temp := tree.parent(h); status := Super;
        case Handle => status := Handled;
        case Unhandle => status := Unhandled;
        case Ignore => status := Ignored;
      }
    }

    /** Entry and exit events never request a transition; a handler may still leave temp changed. */
    method Enter(h: State)
      modifies this`temp, this`trace
      ensures trace == old(trace) + [Entry(h)]
    {
      trace := trace + [Entry(h)];
      temp := *;
    }

    method Leave(h: State)
      modifies this`temp, this`trace
      ensures trace == old(trace) + [Exit(h)]
    {
      trace := trace + [Exit(h)];
      temp := *;
    }

    method SendInit(initial: Initials, h: State) returns (tran: bool)
      modifies this`temp
      ensures tran <==> h != TOP && initial(h).Some?
      ensures tran ==> temp == initial(h).value
    {
      tran := h != TOP && initial(h).Some?;
      if tran {
        temp := initial(h).value;
      } else {
        temp := *;
      }
    }

    // ----- Walking the hierarchy

    method EnterReverse(last: int, ghost p: seq<State>)
      requires -1 <= last < path.Length && |p| == last + 1
      requires forall i :: 0 <= i <= last ==> path[i] == Some(p[i])
      modifies this`temp, this`trace
      ensures trace == old(trace) + Entries(p)
    {
      var level := last;
      EntriesEnds(p, trace);
      hide Entries;
      while level >= 0
        invariant -1 <= level <= last && trace == old(trace) + Entries(p[level + 1..])
      {
        EntriesFrom(p, level, old(trace));
        Enter(path[level].value);
        level := level - 1;
      }
    }

    /** Records the path from temp up to, but excluding, target and enters it from outside. */
    method Descend(target: State) returns (leaf: State)
      requires Shape() && Contains(tree, target, temp) && temp != target
      modifies this`temp, this`trace, path
      ensures leaf == old(temp)
      ensures trace == old(trace) + Entries(Below(tree, leaf, target))
    {
      ghost var dest := temp;
      ghost var n := tree.level(dest) - tree.level(target);
      var level := 0;
      var current := temp;
      while current != target
        invariant level <= n && current == Up(tree, dest, level) && trace == old(trace)
        invariant level == 0 ==> current == dest
        invariant forall i :: 0 <= i < level ==> path[i] == Some(Up(tree, dest, i))
        decreases n - level
      {
        path[level] := Some(current);
        UpStep(tree, dest, level);
        var _ := GetSuper(current);
        current := temp;
        level := level + 1;
      }
      assert level == n;
      ghost var p := Below(tree, dest, target);
      BelowAt(tree, dest, n);
      EnterReverse(level - 1, p);
      leaf := path[0].value;
    }

    method ExitTo(from: State, target: State)
      requires Shape() && Contains(tree, target, from)
      modifies this`temp, this`trace
      ensures trace == old(trace) + Exits(Below(tree, from, target))
    {
      var current := from;
      ghost var n, k := tree.level(from) - tree.level(target), 0;
      while current != target
        invariant k <= n && current == Up(tree, from, k)
        invariant trace == old(trace) + Exits(Path(tree, from, k))
        decreases n - k
      {
        Leave(current);
        var _ := GetSuper(current);
        UpStep(tree, from, k);
        ExitsSnoc(Path(tree, from, k), current);
        current := temp;
        k := k + 1;
      }
    }

    // ----- The search for the lowest common ancestor

    /** Every cache entry is empty or the true ancestor at its level. */
    ghost predicate CacheOk(target: State)
      reads this, path
      requires Shape()
    {
      forall i :: 0 <= i < depth ==>
        path[i] == None || (i <= tree.level(target) && path[i] == Some(Up(tree, target, i)))
    }

    ghost predicate Cached(target: State, n: int)
      reads this, path
      requires Shape()
    {
      forall i :: 0 <= i < n && i < depth ==> i <= tree.level(target) && path[i] == Some(Up(tree, target, i))
    }

    method ClearPath()
      modifies path
      ensures forall i :: 0 <= i < path.Length ==> path[i] == None
    {
      forall i | 0 <= i < path.Length {
        path[i] := None;
      }
    }

    method SuperCache(idx: nat, h: State, ghost target: State)
      requires Shape() && 1 <= idx <= tree.level(target) && h == Up(tree, target, idx - 1)
      requires CacheOk(target) && Cached(target, idx)
      modifies this`temp, path
      ensures temp == Up(tree, target, idx)
      ensures CacheOk(target) && Cached(target, idx + 1)
    {
      UpStep(tree, target, idx - 1);
      if idx == depth {
        var _ := GetSuper(h);
        assert temp == TOP;
        return;
      }
      if path[idx] == None {
        var _ := GetSuper(h);
        path[idx] := Some(temp);
      } else {
        temp := path[idx].value;
      }
    }

    /** One climb through the ancestors of target, looking for source. */
    method FindInAncestors(source: State, target: State) returns (found: bool, level: nat)
      requires Shape() && source != TOP && CacheOk(target) && Cached(target, 1)
      modifies this`temp, path
      ensures CacheOk(target) && found == Contains(tree, source, target)
      ensures level == 1 + tree.level(target) - if found then tree.level(source) else 0
      ensures Cached(target, level)
    {
      level := 1;
      found := false;
      var current := target;
      while current != TOP
        invariant 1 <= level <= tree.level(target) + 1 && current == Up(tree, target, level - 1) && !found
        invariant CacheOk(target) && Cached(target, level)
        invariant forall j :: 0 <= j < level - 1 ==> Up(tree, target, j) != source
        decreases tree.level(target) + 1 - level
      {
        if current == source {
          found := true;
          break;
        }
        SuperCache(level, current, target);
        current := temp;
        level := level + 1;
      }
    }

    /** Leaves source and its super states until one of them contains target. */
    method LeaveToLca(source0: State, target: State) returns (level: nat)
      requires Shape() && source0 != TOP && CacheOk(target) && Cached(target, 1)
      modifies this`temp, this`trace, path
      ensures var l := Lca(tree, source0, target);
              && Contains(tree, l, source0) && Contains(tree, l, target)
              && trace == old(trace) + Exits(Below(tree, source0, l))
              && level == 1 + tree.level(target) - tree.level(l)
      ensures Cached(target, level)
    {
      LcaIsLowest(tree, source0, target, TOP);
      level := 0;
      var source := source0;
      ghost var k := 0;
      while source != TOP
        invariant k <= tree.level(source0) && source == Up(tree, source0, k)
        invariant trace == old(trace) + Exits(Path(tree, source0, k))
        invariant Lca(tree, source, target) == Lca(tree, source0, target)
        invariant CacheOk(target) && Cached(target, 1)
        invariant k > 0 ==> level == 1 + tree.level(target) && Cached(target, level)
        decreases tree.level(source)
      {
        var found;
        found, level := FindInAncestors(source, target);
        LcaClimb(tree, source, target);
        if found {
          break;
        }
        Leave(source);
        var _ := GetSuper(source);
        UpStep(tree, source0, k);
        ExitsSnoc(Path(tree, source0, k), source);
        source := temp;
        k := k + 1;
      }
      if source == TOP {
        TopContains(tree, target);
        LcaClimb(tree, TOP, target);
      }
    }

    // ----- The two public operations

    method Bubble(react: Reactions) returns (current: State, status: Status)
      requires Shape()
      modifies this`temp
      ensures current == Handler(tree, react, state) && status == StatusOf(current, react(current))
      ensures status == Tran ==> temp == react(current).dest
      ensures forall h: State ::
        (Contains(tree, h, state) && (h == TOP || (!react(h).ToSuper? && !react(h).Unhandle?))
         && forall a :: Contains(tree, h, a) && Contains(tree, a, state) && a != h
                        ==> react(a).ToSuper? || react(a).Unhandle?)
        ==> current == h
    {
      forall h: State |
        Contains(tree, h, state) && (h == TOP || (!react(h).ToSuper? && !react(h).Unhandle?))
        && forall a :: Contains(tree, h, a) && Contains(tree, a, state) && a != h
                       ==> react(a).ToSuper? || react(a).Unhandle?
      {
        HandlerIs(tree, react, state, h);
      }
      hide Contains;
      temp := state;
      current := state;
      status := Super;
      while status == Super
        invariant status == Super ==> Handler(tree, react, temp) == Handler(tree, react, state)
        invariant status != Super ==> current == Handler(tree, react, state)
        invariant status != Super ==> status == StatusOf(current, react(current))
        invariant status == Tran ==> temp == react(current).dest
        decreases if status == Super then tree.level(temp) + 1 else 0
      {
        current := temp;
        status := Ask(react, current);
        if status == Unhandled {
          status := GetSuper(current);
        }
      }
    }

    method Initialise(initial: Initials, from: State) returns (leaf: State)
      requires Shape() && Deeper(tree, initial)
      modifies this`temp, this`trace, path
      ensures leaf == Drill(tree, depth, initial, from).1
      ensures trace == old(trace) + Drill(tree, depth, initial, from).0
    {
      hide Drill, Entries;
      leaf := from;
      ghost var whole := Drill(tree, depth, initial, from);
      var tran := SendInit(initial, leaf);
      while tran
        invariant tran == (leaf != TOP && initial(leaf).Some?) && (tran ==> temp == initial(leaf).value)
        invariant Drill(tree, depth, initial, leaf).1 == whole.1
        invariant trace + Drill(tree, depth, initial, leaf).0 == old(trace) + whole.0
        decreases depth - tree.level(leaf)
      {
        DeeperLevel(tree, leaf, temp);
        DrillStep(tree, depth, initial, leaf, trace);
        leaf := Descend(leaf);
        tran := SendInit(initial, leaf);
      }
      DrillEnd(tree, depth, initial, leaf, trace);
    }

    /** The first transition, requested by the initial pseudo state, and its drill-down. */
    method Init(first: State, initial: Initials)
      requires Valid() && Deeper(tree, initial) && first != state && Contains(tree, state, first)
      modifies this, path
      ensures Valid() && state == Drill(tree, depth, initial, first).1
      ensures trace == old(trace) + Entries(Below(tree, first, old(state))) + Drill(tree, depth, initial, first).0
    {
      hide Leads, Drill, Entries, Path;
      temp := first;
      ClearPath();
      var target := Descend(state);
      target := Initialise(initial, target);
      InitLeads(tree, depth, initial, old(trace), state, first);
      state := target;
    }

    /** Enters the cached path of dest below l. */
    method EnterFrom(dest: State, level: int, ghost l: State)
      requires Shape() && Contains(tree, l, dest) && level == 1 + tree.level(dest) - tree.level(l)
      requires Cached(dest, level) && level - 1 <= depth
      modifies this`temp, this`trace
      ensures trace == old(trace) + Entries(Below(tree, dest, l))
    {
      hide Entries, Path;
      ghost var p := Below(tree, dest, l);
      BelowAt(tree, dest, |p|);
      EnterReverse(level - 2, p);
    }

    /** The exits and entries of a transition from the handling state source to dest. */
    method Transition(source: State, dest: State)
      requires Shape() && source != TOP && Contains(tree, source, state)
      modifies this`temp, this`trace, path
      ensures trace == old(trace) + TransitionTrace(tree, state, source, dest)
    {
      hide Exits, Entries, Lca, Path;
      ExitTo(state, source);
      ClearPath();
      path[0] := Some(dest);
      if source == dest {
        Leave(source);
        Enter(dest);
      }
      var level: int := LeaveToLca(source, dest);
      EnterFrom(dest, level, Lca(tree, source, dest));
      TraceAssoc(old(trace), Exits(Below(tree, state, source)),
                 if source == dest then [Exit(source), Entry(source)] else [],
                 Exits(Below(tree, source, Lca(tree, source, dest))),
                 Entries(Below(tree, dest, Lca(tree, source, dest))));
    }

    method Dispatch(react: Reactions, initial: Initials) returns (status: Status)
      requires Valid() && Deeper(tree, initial)
      modifies this, path
      ensures Valid()
      ensures state == Dispatched(tree, depth, old(state), react, initial).1
      ensures trace == old(trace) + Dispatched(tree, depth, old(state), react, initial).0
      ensures forall h: State ::
        (h != TOP && Contains(tree, h, old(state)) && react(h).Transit?
         && forall a :: Contains(tree, h, a) && Contains(tree, a, old(state)) && a != h
                        ==> react(a).ToSuper? || react(a).Unhandle?)
        ==> (var d, l := react(h).dest, Lca(tree, h, react(h).dest);
             && status == Tran && Contains(tree, d, state) && (state == TOP || initial(state).None?)
             && Contains(tree, l, old(state)) && Contains(tree, l, state)
             && trace == old(trace)
                         + if h == d
                           then Exits(Below(tree, old(state), h)) + [Exit(h), Entry(h)] + Entries(Below(tree, state, h))
                           else Exits(Below(tree, old(state), l)) + Entries(Below(tree, state, l)))
      ensures forall h: State ::
        (h != TOP && Contains(tree, h, old(state)) && (react(h).Handle? || react(h).Ignore?)
         && forall a :: Contains(tree, h, a) && Contains(tree, a, old(state)) && a != h
                        ==> react(a).ToSuper? || react(a).Unhandle?)
        ==> status == (if react(h).Handle? then Handled else Ignored) && state == old(state) && trace == old(trace)
      ensures (forall a :: a != TOP && Contains(tree, a, old(state)) ==> react(a).ToSuper? || react(a).Unhandle?)
        ==> status == Ignored && state == old(state) && trace == old(trace)
    {
      hide Handler, Drill, Exits, Entries, Lca, TransitionTrace, Leads, Below, Contains, Dispatched;
      ghost var status1, trace1, state1 := DispatchOutcome(tree, depth, state, react, initial, trace);
      DispatchedParts(tree, depth, state, react, initial, trace);
      DispatchLeads(tree, depth, state, react, initial);
      LeadsOn(tree, TOP, trace, state, Dispatched(tree, depth, state, react, initial).0, state1);
      var source;
      source, status := Bubble(react);
      if status == Tran {
        var dest := temp;
        Transition(source, dest);
        var target := Initialise(initial, dest);
        state := target;
      }
      assert trace == trace1 && state == state1;
    }
  }
}
