/** State hierarchies: ancestors, paths and lowest common ancestors in a tree of state handlers. */
module HsmTree {
  import opened Wrappers
  type State = nat

  const TOP: State := 0

  /** Every handler but the top one names its super state when it gets the empty event. */
  datatype Tree = Tree(parent: State -> State, level: State -> nat)

  ghost predicate WellFormed(t: Tree) {
    && t.level(TOP) == 0
    && (forall s: State :: s != TOP ==> t.level(s) > 0)
    && forall s: State :: s != TOP ==> t.level(s) == t.level(t.parent(s)) + 1
  }

  ghost function Up(t: Tree, s: State, n: nat): (a: State)
    requires WellFormed(t) && n <= t.level(s)
    ensures t.level(a) == t.level(s) - n
    decreases n
  {
    if n == 0 then s else Up(t, t.parent(s), n - 1)
  }

  /** a is s or one of its super states, up to and including the top state. */
  ghost predicate Contains(t: Tree, a: State, s: State)
    requires WellFormed(t)
  {
    t.level(a) <= t.level(s) && Up(t, s, t.level(s) - t.level(a)) == a
  }

  /** s and its super states, innermost first, below the n-th one. */
  ghost function Path(t: Tree, s: State, n: nat): (p: seq<State>)
    requires WellFormed(t) && n <= t.level(s)
    ensures |p| == n
    decreases n
  {
    if n == 0 then [] else [s] + Path(t, t.parent(s), n - 1)
  }

  /** The states that are active while s is the current state. */
  ghost function Chain(t: Tree, s: State): set<State>
    requires WellFormed(t)
    decreases t.level(s)
  {
    if s == TOP then {} else {s} + Chain(t, t.parent(s))
  }

  ghost function Lca(t: Tree, s: State, u: State): State
    requires WellFormed(t)
    decreases t.level(s) + t.level(u)
  {
    if s == u then s
    else if t.level(s) >= t.level(u) then Lca(t, t.parent(s), u)
    else Lca(t, s, t.parent(u))
  }

  lemma {:induction false} UpStep(t: Tree, s: State, n: nat)
    requires WellFormed(t) && n < t.level(s)
    ensures Up(t, s, n + 1) == t.parent(Up(t, s, n))
    ensures Path(t, s, n + 1) == Path(t, s, n) + [Up(t, s, n)]
    decreases n
  {
    if n > 0 {
      UpStep(t, t.parent(s), n - 1);
    }
  }

  lemma PathAt(t: Tree, s: State, n: nat, i: nat)
    requires WellFormed(t) && i < n <= t.level(s)
    ensures Path(t, s, n)[i] == Up(t, s, i)
    decreases n
  {
    if i > 0 {
      PathAt(t, t.parent(s), n - 1, i - 1);
    }
  }

  /** Climbing and recording in two parts. */
  lemma {:induction false} UpUp(t: Tree, s: State, n: nat, m: nat)
    requires WellFormed(t) && n + m <= t.level(s)
    ensures Up(t, s, n + m) == Up(t, Up(t, s, n), m)
    ensures Path(t, s, n + m) == Path(t, s, n) + Path(t, Up(t, s, n), m)
    decreases n
  {
    if n > 0 {
      UpUp(t, t.parent(s), n - 1, m);
    }
  }

  lemma ContainsTrans(t: Tree, a: State, b: State, s: State)
    requires WellFormed(t) && Contains(t, a, b) && Contains(t, b, s)
    ensures Contains(t, a, s)
  {
    UpUp(t, s, t.level(s) - t.level(b), t.level(b) - t.level(a));
  }

  lemma ContainsParent(t: Tree, a: State, s: State)
    requires WellFormed(t) && s != TOP
    ensures Contains(t, a, t.parent(s)) ==> Contains(t, a, s)
    ensures Contains(t, a, s) && a != s ==> Contains(t, a, t.parent(s))
  {
  }

  /** Lca is what its name says: a common container that every other one contains. */
  lemma {:induction false} LcaIsLowest(t: Tree, s: State, u: State, a: State)
    requires WellFormed(t)
    ensures Contains(t, Lca(t, s, u), s) && Contains(t, Lca(t, s, u), u)
    ensures Contains(t, a, s) && Contains(t, a, u) ==> Contains(t, a, Lca(t, s, u))
    decreases t.level(s) + t.level(u)
  {
    if s == u {
    } else if t.level(s) >= t.level(u) {
      ContainsParent(t, a, s);
      ContainsParent(t, Lca(t, s, u), s);
      LcaIsLowest(t, t.parent(s), u, a);
    } else {
      ContainsParent(t, a, u);
      ContainsParent(t, Lca(t, s, u), u);
      LcaIsLowest(t, s, t.parent(u), a);
    }
  }

  lemma LcaUnique(t: Tree, s: State, u: State, l: State)
    requires WellFormed(t) && Contains(t, l, s) && Contains(t, l, u)
    requires forall a :: Contains(t, a, s) && Contains(t, a, u) ==> Contains(t, a, l)
    ensures Lca(t, s, u) == l
  {
    LcaIsLowest(t, s, u, l);
  }

  /** The search the dispatcher performs: climb from s until u is contained. */
  lemma LcaClimb(t: Tree, s: State, u: State)
    requires WellFormed(t)
    ensures Contains(t, s, u) ==> Lca(t, s, u) == s
    ensures s != TOP && !Contains(t, s, u) ==> Lca(t, s, u) == Lca(t, t.parent(s), u)
  {
    if Contains(t, s, u) {
      LcaUnique(t, s, u, s);
    } else if s != TOP {
      var l := Lca(t, t.parent(s), u);
      LcaIsLowest(t, t.parent(s), u, l);
      ContainsParent(t, l, s);
      forall a | Contains(t, a, s) && Contains(t, a, u) ensures Contains(t, a, l) {
        ContainsParent(t, a, s);
        LcaIsLowest(t, t.parent(s), u, a);
      }
      LcaUnique(t, s, u, l);
    }
  }

  lemma {:induction false} ChainMembers(t: Tree, s: State, a: State)
    requires WellFormed(t)
    ensures a in Chain(t, s) <==> a != TOP && Contains(t, a, s)
    decreases t.level(s)
  {
    if s != TOP {
      ChainMembers(t, t.parent(s), a);
      ContainsParent(t, a, s);
    }
  }

  lemma TopContains(t: Tree, s: State)
    requires WellFormed(t)
    ensures Contains(t, TOP, s)
  {
    assert t.level(Up(t, s, t.level(s))) == 0;
  }
}
