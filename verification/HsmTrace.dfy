/** What dispatching an event has to do, as a sequence of exits and entries: bubbling, exits up to
    the lowest common ancestor, entries down to the destination, and the initial transitions below
    it. Replaying such a sequence never leaves the configuration inconsistent. */
module HsmTrace {
  import opened Wrappers
  import opened HsmTree

  datatype Status = Tran | Super | Handled | Unhandled | Ignored

  /** What a state handler answers to a user event; it may answer differently each time. */
  datatype Reaction = Transit(dest: State) | ToSuper | Handle | Unhandle | Ignore

  datatype Action = Entry(s: State) | Exit(s: State)

  type Reactions = State -> Reaction
  type Initials = State -> Option<State>

  function StatusOf(h: State, r: Reaction): Status {
    if h == TOP then Ignored else match r case Transit(_) => Tran case Handle => Handled case _ => Ignored
  }

  ghost predicate Fits(t: Tree, depth: nat) {
    WellFormed(t) && forall s: State :: t.level(s) <= depth
  }

  /** Initial transitions only point deeper into the hierarchy. */
  ghost predicate Deeper(t: Tree, initial: Initials)
    requires WellFormed(t)
  {
    forall s: State :: s != TOP && initial(s).Some? ==> initial(s).value != s && Contains(t, s, initial(s).value)
  }

  /** The state that finally deals with the event. */
  ghost function Handler(t: Tree, react: Reactions, s: State): State
    requires WellFormed(t)
    decreases t.level(s)
  {
    if s == TOP || !(react(s).ToSuper? || react(s).Unhandle?) then s else Handler(t, react, t.parent(s))
  }

  ghost function Exits(p: seq<State>): (r: seq<Action>)
    ensures |r| == |p|
  {
    if p == [] then [] else [Exit(p[0])] + Exits(p[1..])
  }

  /** Entering a path goes from the outermost state to the innermost. */
  ghost function Entries(p: seq<State>): (r: seq<Action>)
    ensures |r| == |p|
  {
    if p == [] then [] else Entries(p[1..]) + [Entry(p[0])]
  }

  ghost function Below(t: Tree, s: State, a: State): seq<State>
    requires WellFormed(t) && t.level(a) <= t.level(s)
  {
    Path(t, s, t.level(s) - t.level(a))
  }

  /** Initial transitions from s: the actions, and the state where they end. */
  ghost function Drill(t: Tree, depth: nat, initial: Initials, s: State): (r: (seq<Action>, State))
    requires Fits(t, depth) && Deeper(t, initial)
    decreases depth - t.level(s)
  {
    if s == TOP || initial(s).None? then ([], s)
    else
      var d := initial(s).value;
      DeeperLevel(t, s, d);
      var rest := Drill(t, depth, initial, d);
      (Entries(Below(t, d, s)) + rest.0, rest.1)
  }

  lemma DeeperLevel(t: Tree, s: State, d: State)
    requires WellFormed(t) && Contains(t, s, d) && s != d
    ensures t.level(s) < t.level(d)
  {
  }

  /** The actions of a transition requested by h while s is current. */
  ghost function TransitionTrace(t: Tree, s: State, h: State, d: State): seq<Action>
    requires WellFormed(t) && Contains(t, h, s)
  {
    var l := Lca(t, h, d);
    LcaIsLowest(t, h, d, l);
    Exits(Below(t, s, h)) + (if h == d then [Exit(h), Entry(h)] else [])
    + Exits(Below(t, h, l)) + Entries(Below(t, d, l))
  }

  ghost function Dispatched(t: Tree, depth: nat, s: State, react: Reactions, initial: Initials)
    : (r: (seq<Action>, State))
    requires Fits(t, depth) && Deeper(t, initial)
  {
    var h := Handler(t, react, s);
    HandlerContains(t, react, s);
    if h == TOP || !react(h).Transit? then ([], s)
    else
      var drill := Drill(t, depth, initial, react(h).dest);
      (TransitionTrace(t, s, h, react(h).dest) + drill.0, drill.1)
  }

  /** The parts of a dispatch, behind the trace recorded so far. */
  lemma DispatchedParts(t: Tree, depth: nat, s: State, react: Reactions, initial: Initials, before: seq<Action>)
    requires Fits(t, depth) && Deeper(t, initial)
    ensures var h, r := Handler(t, react, s), Dispatched(t, depth, s, react, initial);
            && Contains(t, h, s)
            && if StatusOf(h, react(h)) == Tran
               then var drill := Drill(t, depth, initial, react(h).dest);
                 r.1 == drill.1 && before + r.0 == before + TransitionTrace(t, s, h, react(h).dest) + drill.0
               else r.1 == s && before + r.0 == before
  {
    hide Handler, TransitionTrace, Drill;
    HandlerContains(t, react, s);
  }

  lemma {:induction false} HandlerContains(t: Tree, react: Reactions, s: State)
    requires WellFormed(t)
    ensures Contains(t, Handler(t, react, s), s)
    decreases t.level(s)
  {
    if s != TOP && (react(s).ToSuper? || react(s).Unhandle?) {
      HandlerContains(t, react, t.parent(s));
      ContainsParent(t, Handler(t, react, s), s);
    }
  }

  /** The handling state is the first one, from the current state outwards, that does not pass the event on. */
  lemma {:induction false} HandlerIs(t: Tree, react: Reactions, s: State, h: State)
    requires WellFormed(t) && Contains(t, h, s)
    requires forall a :: Contains(t, h, a) && Contains(t, a, s) && a != h ==> react(a).ToSuper? || react(a).Unhandle?
    ensures Handler(t, react, s) == if h == TOP || !(react(h).ToSuper? || react(h).Unhandle?) then h
                                    else Handler(t, react, t.parent(h))
    decreases t.level(s)
  {
    if s != h {
      assert s != TOP && Contains(t, s, s);
      forall a | Contains(t, a, t.parent(s)) ensures Contains(t, a, s) {
        ContainsParent(t, a, s);
      }
      ContainsParent(t, h, s);
      HandlerIs(t, react, t.parent(s), h);
    }
  }

  /** Where initial transitions end, and that they enter what lies on the way. */
  lemma {:induction false} DrillIs(t: Tree, depth: nat, initial: Initials, d: State, q: seq<State>)
    requires Fits(t, depth) && Deeper(t, initial) && |q| > 0 && q[0] == d
    requires forall i :: 0 <= i < |q| - 1 ==> q[i] != TOP && initial(q[i]) == Some(q[i + 1])
    requires var f := q[|q| - 1]; f == TOP || initial(f).None?
    ensures var f := q[|q| - 1];
            Contains(t, d, f) && Drill(t, depth, initial, d) == (Entries(Below(t, f, d)), f)
    decreases |q|
  {
    var f := q[|q| - 1];
    if |q| > 1 {
      assert initial(q[0]) == Some(q[1]);
      DrillIs(t, depth, initial, q[1], q[1..]);
      EntriesJoin(t, f, q[1], d);
    }
  }

  /** There is such a sequence of initial transitions for every destination. */
  lemma {:induction false} DrillSteps(t: Tree, depth: nat, initial: Initials, d: State) returns (q: seq<State>)
    requires Fits(t, depth) && Deeper(t, initial)
    ensures |q| > 0 && q[0] == d && forall i :: 0 <= i < |q| - 1 ==> q[i] != TOP && initial(q[i]) == Some(q[i + 1])
    ensures var f := q[|q| - 1]; f == TOP || initial(f).None?
    decreases depth - t.level(d)
  {
    q := [d];
    if d != TOP && initial(d).Some? {
      DeeperLevel(t, d, initial(d).value);
      var rest := DrillSteps(t, depth, initial, initial(d).value);
      q := q + rest;
    }
  }

  lemma ExitsJoin(t: Tree, s: State, b: State, a: State)
    requires WellFormed(t) && Contains(t, a, b) && Contains(t, b, s)
    ensures Contains(t, a, s) && Exits(Below(t, s, a)) == Exits(Below(t, s, b)) + Exits(Below(t, b, a))
  {
    ContainsTrans(t, a, b, s);
    UpUp(t, s, t.level(s) - t.level(b), t.level(b) - t.level(a));
    ExitsAppend(Below(t, s, b), Below(t, b, a));
  }

  lemma EntriesJoin(t: Tree, s: State, b: State, a: State)
    requires WellFormed(t) && Contains(t, a, b) && Contains(t, b, s)
    ensures Contains(t, a, s) && Entries(Below(t, s, a)) == Entries(Below(t, b, a)) + Entries(Below(t, s, b))
  {
    ContainsTrans(t, a, b, s);
    UpUp(t, s, t.level(s) - t.level(b), t.level(b) - t.level(a));
    EntriesAppend(Below(t, s, b), Below(t, b, a));
  }

  /** What a dispatch does when h is the first state, from s outwards, that does not pass the event on:
      s and its super states are left up to the lowest common ancestor of h and the destination, and from there
      everything down to the final state is entered. A self transition leaves and re-enters h itself. */
  lemma DispatchedBy(t: Tree, depth: nat, s: State, react: Reactions, initial: Initials, h: State)
    requires Fits(t, depth) && Deeper(t, initial) && h != TOP && Contains(t, h, s)
    requires forall a :: Contains(t, h, a) && Contains(t, a, s) && a != h ==> react(a).ToSuper? || react(a).Unhandle?
    requires !react(h).ToSuper? && !react(h).Unhandle?
    ensures Handler(t, react, s) == h
    ensures var (actions, f) := Dispatched(t, depth, s, react, initial);
            if !react(h).Transit? then actions == [] && f == s
            else
              var d := react(h).dest;
              var l := Lca(t, h, d);
              && Contains(t, d, f) && (f == TOP || initial(f).None?)
              && Contains(t, l, s) && Contains(t, l, f)
              && if h == d then actions == Exits(Below(t, s, h)) + [Exit(h), Entry(h)] + Entries(Below(t, f, h))
                 else actions == Exits(Below(t, s, l)) + Entries(Below(t, f, l))
  {
    hide Exits, Entries, Below, Lca;
    HandlerIs(t, react, s, h);
    if react(h).Transit? {
      var d := react(h).dest;
      var l := Lca(t, h, d);
      LcaIsLowest(t, h, d, l);
      var q := DrillSteps(t, depth, initial, d);
      DrillIs(t, depth, initial, d, q);
      var f := q[|q| - 1];
      ExitsJoin(t, s, h, l);
      EntriesJoin(t, f, d, l);
      Four(Exits(Below(t, s, h)), Exits(Below(t, h, l)), Entries(Below(t, d, l)), Entries(Below(t, f, d)));
      if h == d {
        LcaSame(t, h);
      }
    }
  }

  /** If no state passes the event to anything but its super state, it is ignored. */
  lemma NobodyHandles(t: Tree, depth: nat, s: State, react: Reactions, initial: Initials)
    requires Fits(t, depth) && Deeper(t, initial)
    requires forall a :: a != TOP && Contains(t, a, s) ==> react(a).ToSuper? || react(a).Unhandle?
    ensures Handler(t, react, s) == TOP && Dispatched(t, depth, s, react, initial) == ([], s)
  {
    TopContains(t, s);
    HandlerIs(t, react, s, TOP);
  }

  /** The two together, for whatever state turns out to handle the event, with the trace recorded so far. */
  lemma DispatchOutcome(t: Tree, depth: nat, s: State, react: Reactions, initial: Initials, before: seq<Action>)
    returns (status: Status, trace: seq<Action>, f: State)
    requires Fits(t, depth) && Deeper(t, initial)
    ensures var h := Handler(t, react, s); status == StatusOf(h, react(h))
    ensures var r := Dispatched(t, depth, s, react, initial); trace == before + r.0 && f == r.1
    ensures forall h: State ::
      (h != TOP && Contains(t, h, s) && react(h).Transit?
       && forall a :: Contains(t, h, a) && Contains(t, a, s) && a != h ==> react(a).ToSuper? || react(a).Unhandle?)
      ==> (var d, l := react(h).dest, Lca(t, h, react(h).dest);
           && status == Tran && Contains(t, d, f) && (f == TOP || initial(f).None?)
           && Contains(t, l, s) && Contains(t, l, f)
           && trace == before + if h == d then Exits(Below(t, s, h)) + [Exit(h), Entry(h)] + Entries(Below(t, f, h))
                                else Exits(Below(t, s, l)) + Entries(Below(t, f, l)))
    ensures forall h: State ::
      (h != TOP && Contains(t, h, s) && (react(h).Handle? || react(h).Ignore?)
       && forall a :: Contains(t, h, a) && Contains(t, a, s) && a != h ==> react(a).ToSuper? || react(a).Unhandle?)
      ==> status == (if react(h).Handle? then Handled else Ignored) && f == s && trace == before
    ensures (forall a :: a != TOP && Contains(t, a, s) ==> react(a).ToSuper? || react(a).Unhandle?)
      ==> status == Ignored && f == s && trace == before
  {
    hide Exits, Entries, Below, Lca, Contains, Dispatched, Handler;
    status := StatusOf(Handler(t, react, s), react(Handler(t, react, s)));
    trace := before + Dispatched(t, depth, s, react, initial).0;
    f := Dispatched(t, depth, s, react, initial).1;
    forall h: State |
      h != TOP && Contains(t, h, s) && !react(h).ToSuper? && !react(h).Unhandle?
      && forall a :: Contains(t, h, a) && Contains(t, a, s) && a != h ==> react(a).ToSuper? || react(a).Unhandle?
    {
      DispatchedBy(t, depth, s, react, initial, h);
    }
    if forall a :: a != TOP && Contains(t, a, s) ==> react(a).ToSuper? || react(a).Unhandle? {
      NobodyHandles(t, depth, s, react, initial);
    }
  }

  lemma LcaSame(t: Tree, h: State)
    requires WellFormed(t)
    ensures Lca(t, h, h) == h && Exits(Below(t, h, h)) == [] && Entries(Below(t, h, h)) == []
  {
  }

  lemma Four(a: seq<Action>, b: seq<Action>, c: seq<Action>, d: seq<Action>)
    ensures a + [] + b + c + d == (a + b) + (c + d)
  {
  }

  // ----- The machine

  lemma BelowAt(t: Tree, s: State, n: nat)
    requires WellFormed(t) && n <= t.level(s)
    ensures forall i :: 0 <= i < n ==> Path(t, s, n)[i] == Up(t, s, i)
  {
    forall i | 0 <= i < n ensures Path(t, s, n)[i] == Up(t, s, i) {
      PathAt(t, s, n, i);
    }
  }

  lemma TraceAssoc(o: seq<Action>, a: seq<Action>, b: seq<Action>, c: seq<Action>, d: seq<Action>)
    ensures o + a + b + c + d == o + (a + b + c + d)
    ensures b == [] ==> o + a == o + a + b
    ensures |b| == 2 ==> o + a + [b[0]] + [b[1]] == o + a + b
  {
  }

  lemma DrillStep(t: Tree, depth: nat, initial: Initials, s: State, before: seq<Action>)
    requires Fits(t, depth) && Deeper(t, initial) && s != TOP && initial(s).Some?
    ensures var d := initial(s).value;
            && t.level(s) < t.level(d) <= depth
            && before + Drill(t, depth, initial, s).0
               == before + Entries(Below(t, d, s)) + Drill(t, depth, initial, d).0
            && Drill(t, depth, initial, s).1 == Drill(t, depth, initial, d).1
  {
    DeeperLevel(t, s, initial(s).value);
  }

  lemma DrillEnd(t: Tree, depth: nat, initial: Initials, s: State, before: seq<Action>)
    requires Fits(t, depth) && Deeper(t, initial) && (s == TOP || initial(s).None?)
    ensures Drill(t, depth, initial, s) == ([], s) && before + [] == before
  {
  }

  lemma EntriesEnds(p: seq<State>, before: seq<Action>)
    ensures before + Entries(p[|p|..]) == before && p[0..] == p
  {
  }

  lemma EntriesFrom(p: seq<State>, k: nat, before: seq<Action>)
    requires k < |p|
    ensures before + Entries(p[k + 1..]) + [Entry(p[k])] == before + Entries(p[k..])
  {
    assert p[k..][1..] == p[k + 1..];
  }

  lemma {:induction false} ExitsAppend(p: seq<State>, q: seq<State>)
    ensures Exits(p + q) == Exits(p) + Exits(q)
  {
    if p == [] {
      assert p + q == q;
    } else {
      assert (p + q)[1..] == p[1..] + q;
      ExitsAppend(p[1..], q);
    }
  }

  lemma {:induction false} EntriesAppend(p: seq<State>, q: seq<State>)
    ensures Entries(p + q) == Entries(q) + Entries(p)
  {
    if p == [] {
      assert p + q == q;
    } else {
      assert (p + q)[1..] == p[1..] + q;
      EntriesAppend(p[1..], q);
    }
  }

  /** Exits follow the path, entries go through it backwards. */
  lemma {:induction false} ActionAt(p: seq<State>, i: nat)
    requires i < |p|
    ensures Exits(p)[i] == Exit(p[i]) && Entries(p)[|p| - 1 - i] == Entry(p[i])
  {
    if i > 0 {
      ActionAt(p[1..], i - 1);
    }
  }

  lemma ExitsSnoc(p: seq<State>, s: State)
    ensures Exits(p + [s]) == Exits(p) + [Exit(s)]
  {
    ExitsAppend(p, [s]);
    assert Exits([s]) == [Exit(s)] + Exits([]);
  }

  // ----- Replaying actions on the set of active states

  /** None if an action makes no sense: a state entered while active or before its super state,
      or left while inactive or before its sub states. */
  ghost function Play(t: Tree, active: set<State>, trace: seq<Action>): Option<set<State>>
    decreases |trace|
  {
    if trace == [] then Some(active)
    else match trace[0]
      case Entry(s) =>
        if s != TOP && s !in active && (t.parent(s) == TOP || t.parent(s) in active)
        then Play(t, active + {s}, trace[1..]) else None
      case Exit(s) =>
        if s in active && forall c :: c in active ==> t.parent(c) != s
        then Play(t, active - {s}, trace[1..]) else None
  }

  ghost predicate Leads(t: Tree, from: State, trace: seq<Action>, to: State)
    requires WellFormed(t)
  {
    Play(t, Chain(t, from), trace) == Some(Chain(t, to))
  }

  lemma {:induction false} PlayAppend(t: Tree, active: set<State>, x: seq<Action>, y: seq<Action>)
    requires Play(t, active, x).Some?
    ensures Play(t, active, x + y) == Play(t, Play(t, active, x).value, y)
    decreases |x|
  {
    if x == [] {
      assert x + y == y;
    } else {
      assert (x + y)[1..] == x[1..] + y && (x + y)[0] == x[0];
      match x[0]
      case Entry(s) => PlayAppend(t, active + {s}, x[1..], y);
      case Exit(s) => PlayAppend(t, active - {s}, x[1..], y);
    }
  }

  lemma LeadsOn(t: Tree, a: State, x: seq<Action>, b: State, y: seq<Action>, c: State)
    requires WellFormed(t) && Leads(t, a, x, b) && Leads(t, b, y, c)
    ensures Leads(t, a, x + y, c)
  {
    PlayAppend(t, Chain(t, a), x, y);
  }

  lemma PlayOne(t: Tree, s: State)
    requires WellFormed(t) && s != TOP
    ensures Leads(t, s, [Exit(s)], t.parent(s)) && Leads(t, t.parent(s), [Entry(s)], s)
  {
    var below := Chain(t, t.parent(s));
    forall c | c in Chain(t, s) ensures t.parent(c) != s && (c in below ==> c != s) {
      ChainMembers(t, s, c);
      ChainMembers(t, t.parent(s), c);
    }
    ChainMembers(t, t.parent(s), t.parent(s));
    assert s in Chain(t, s) && s !in below && Chain(t, s) - {s} == below && below + {s} == Chain(t, s);
    assert [Exit(s)][1..] == [] && [Entry(s)][1..] == [];
  }

  lemma {:induction false} ExitsLead(t: Tree, s: State, n: nat)
    requires WellFormed(t) && n <= t.level(s)
    ensures Leads(t, s, Exits(Path(t, s, n)), Up(t, s, n))
    decreases n
  {
    if n > 0 {
      PlayOne(t, s);
      ExitsLead(t, t.parent(s), n - 1);
      LeadsOn(t, s, [Exit(s)], t.parent(s), Exits(Path(t, t.parent(s), n - 1)), Up(t, s, n));
      assert Path(t, s, n)[1..] == Path(t, t.parent(s), n - 1);
    }
  }

  lemma {:induction false} EntriesLead(t: Tree, s: State, n: nat)
    requires WellFormed(t) && n <= t.level(s)
    ensures Leads(t, Up(t, s, n), Entries(Path(t, s, n)), s)
    decreases n
  {
    if n > 0 {
      PlayOne(t, s);
      EntriesLead(t, t.parent(s), n - 1);
      LeadsOn(t, Up(t, s, n), Entries(Path(t, t.parent(s), n - 1)), t.parent(s), [Entry(s)], s);
      assert Path(t, s, n)[1..] == Path(t, t.parent(s), n - 1);
    }
  }

  lemma TransitionLeads(t: Tree, s: State, h: State, d: State)
    requires WellFormed(t) && Contains(t, h, s) && h != TOP
    ensures Leads(t, s, TransitionTrace(t, s, h, d), d)
  {
    hide Play, Exits, Entries, Path, Lca;
    var l := Lca(t, h, d);
    LcaIsLowest(t, h, d, l);
    var a, c, e := Exits(Below(t, s, h)), Exits(Below(t, h, l)), Entries(Below(t, d, l));
    var b := if h == d then [Exit(h), Entry(h)] else [];
    ExitsLead(t, s, t.level(s) - t.level(h));
    ExitsLead(t, h, t.level(h) - t.level(l));
    EntriesLead(t, d, t.level(d) - t.level(l));
    SelfLeads(t, h, d);
    LeadsOn(t, s, a, h, b, h);
    LeadsOn(t, s, a + b, h, c, l);
    LeadsOn(t, s, a + b + c, l, e, d);
  }

  lemma SelfLeads(t: Tree, h: State, d: State)
    requires WellFormed(t) && h != TOP
    ensures Leads(t, h, if h == d then [Exit(h), Entry(h)] else [], h)
  {
    PlayOne(t, h);
    LeadsOn(t, h, [Exit(h)], t.parent(h), [Entry(h)], h);
    assert [Exit(h)] + [Entry(h)] == [Exit(h), Entry(h)];
  }

  lemma {:induction false} DrillLeads(t: Tree, depth: nat, initial: Initials, s: State)
    requires Fits(t, depth) && Deeper(t, initial)
    ensures Leads(t, s, Drill(t, depth, initial, s).0, Drill(t, depth, initial, s).1)
    decreases depth - t.level(s)
  {
    if s != TOP && initial(s).Some? {
      var d := initial(s).value;
      DeeperLevel(t, s, d);
      EntriesLead(t, d, t.level(d) - t.level(s));
      DrillLeads(t, depth, initial, d);
      LeadsOn(t, s, Entries(Below(t, d, s)), d, Drill(t, depth, initial, d).0, Drill(t, depth, initial, d).1);
    }
  }

  /** Every dispatch takes the configuration of one state to the configuration of another. */
  lemma DispatchLeads(t: Tree, depth: nat, s: State, react: Reactions, initial: Initials)
    requires Fits(t, depth) && Deeper(t, initial)
    ensures var r := Dispatched(t, depth, s, react, initial); Leads(t, s, r.0, r.1)
  {
    hide Play, TransitionTrace, Drill;
    HandlerContains(t, react, s);
    var h := Handler(t, react, s);
    if h != TOP && react(h).Transit? {
      var d := react(h).dest;
      TransitionLeads(t, s, h, d);
      DrillLeads(t, depth, initial, d);
      LeadsOn(t, s, TransitionTrace(t, s, h, d), d, Drill(t, depth, initial, d).0, Drill(t, depth, initial, d).1);
    } else {
      NothingLeads(t, s);
    }
  }

  lemma NothingLeads(t: Tree, s: State)
    requires WellFormed(t)
    ensures Leads(t, s, [], s)
  {
  }

  /** The first transition, from the top state or any state that contains its destination. */
  lemma InitLeads(t: Tree, depth: nat, initial: Initials, before: seq<Action>, s: State, first: State)
    requires Fits(t, depth) && Deeper(t, initial) && Contains(t, s, first) && Leads(t, TOP, before, s)
    ensures var drill := Drill(t, depth, initial, first);
            Leads(t, TOP, before + Entries(Below(t, first, s)) + drill.0, drill.1)
  {
    hide Play;
    var entered, drill := Entries(Below(t, first, s)), Drill(t, depth, initial, first);
    EntriesLead(t, first, t.level(first) - t.level(s));
    DrillLeads(t, depth, initial, first);
    LeadsOn(t, TOP, before, s, entered, first);
    LeadsOn(t, TOP, before + entered, first, drill.0, drill.1);
  }

  /** Init followed by any sequence of dispatches, whatever the handlers answer each time. */
  datatype Event = Event(react: Reactions, initial: Initials)

  ghost function Run(t: Tree, depth: nat, s: State, events: seq<Event>): (seq<Action>, State)
    requires Fits(t, depth) && forall e :: e in events ==> Deeper(t, e.initial)
    decreases |events|
  {
    if events == [] then ([], s)
    else
      var first := Dispatched(t, depth, s, events[0].react, events[0].initial);
      var rest := Run(t, depth, first.1, events[1..]);
      (first.0 + rest.0, rest.1)
  }

  /** The states entered and not yet exited are the chain of the current state, after any run. */
  lemma {:induction false} RunLeads(t: Tree, depth: nat, s: State, events: seq<Event>)
    requires Fits(t, depth) && forall e :: e in events ==> Deeper(t, e.initial)
    ensures Leads(t, s, Run(t, depth, s, events).0, Run(t, depth, s, events).1)
    decreases |events|
  {
    if events == [] {
      NothingLeads(t, s);
    } else {
      var first := Dispatched(t, depth, s, events[0].react, events[0].initial);
      var rest := Run(t, depth, first.1, events[1..]);
      DispatchLeads(t, depth, s, events[0].react, events[0].initial);
      RunLeads(t, depth, first.1, events[1..]);
      LeadsOn(t, s, first.0, first.1, rest.0, rest.1);
    }
  }
}
