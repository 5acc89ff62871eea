/** Facts about sequences that the solver is better told than left to find. */
module Sequences {
  lemma Assoc<T>(a: seq<T>, b: seq<T>, c: seq<T>)
    ensures (a + b) + c == a + (b + c)
  {
  }

  lemma NothingBehind<T>(a: seq<T>)
    ensures a + [] == a
  {
  }

  lemma SliceOfSlice<T>(d: seq<T>, a: nat, b: nat, i: nat, j: nat)
    requires a <= b <= |d| && i <= j <= b - a
    ensures d[a..b][i..j] == d[a + i..a + j]
  {
    var u, v := d[a..b][i..j], d[a + i..a + j];
    assert forall k :: 0 <= k < j - i ==> u[k] == v[k];
  }

  /** Moving the first element of what is to come to the end of what is done. */
  lemma MoveOn<T>(done: seq<T>, x: T, ahead: seq<T>, rest: seq<T>)
    requires ahead == [x] + rest
    ensures done + ahead == (done + [x]) + rest && |rest| < |ahead|
  {
  }

  /** All pieces, one after the other. */
  function Flat<T>(pieces: seq<seq<T>>): seq<T> {
    if pieces == [] then [] else Flat(pieces[..|pieces| - 1]) + pieces[|pieces| - 1]
  }

  lemma FlatAppend<T>(pieces: seq<seq<T>>, x: seq<T>)
    ensures Flat(pieces + [x]) == Flat(pieces) + x
  {
    assert (pieces + [x])[..|pieces|] == pieces;
  }

  lemma {:induction false} FlatPrefix<T>(pieces: seq<seq<T>>, i: nat)
    requires i < |pieces|
    ensures Flat(pieces[..i + 1]) == Flat(pieces[..i]) + pieces[i]
    ensures |Flat(pieces[..i])| + |pieces[i]| <= |Flat(pieces)|
    decreases |pieces| - i
  {
    assert pieces[..i + 1] == pieces[..i] + [pieces[i]];
    FlatAppend(pieces[..i], pieces[i]);
    if i + 1 < |pieces| {
      FlatPrefix(pieces, i + 1);
    } else {
      assert pieces[..i + 1] == pieces;
    }
  }
}
