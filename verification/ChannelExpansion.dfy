/** Spreading interleaved audio frames over more channels (or fewer) within one buffer, from the last
    frame to the first. */
module ChannelExpansion {
  import opened Widths

  /** Sample of channel c in frame i, w channels being interleaved. */
  function At(i: nat, w: nat, c: nat): nat { i * w + c }

  /** The channel that channel d is copied from. */
  function Source(d: nat, have: nat): (c: nat)
    requires have > 0
    ensures c < have && (d < have ==> c == d)
  {
    d % have
  }

  lemma AtStep(i: nat, w: nat, c: nat)
    ensures At(i + 1, w, c) == At(i, w, c) + w && At(i, w, c) == At(i, w, 0) + c && At(0, w, c) == c
  {
  }

  lemma {:induction false} FramesApart(i: nat, k: nat, w: nat)
    requires i < k
    ensures At(i + 1, w, 0) <= At(k, w, 0)
  {
    if i + 1 < k {
      FramesApart(i, k - 1, w);
      AtStep(k - 1, w, 0);
    }
  }

  predicate Fits(s: seq<int16>, n: nat, have: nat, need: nat) {
    At(n, have, 0) <= |s| && At(n, need, 0) <= |s|
  }

  lemma InBuffer(s: seq<int16>, n: nat, have: nat, need: nat, i: nat, d: nat)
    requires Fits(s, n, have, need) && i < n && d < need && have > 0
    ensures At(i, need, d) < |s| && At(i, have, Source(d, have)) < |s|
  {
    FramesApart(i, n, have);
    FramesApart(i, n, need);
    AtStep(i, have, Source(d, have));
    AtStep(i, need, d);
    AtStep(i, have, 0);
    AtStep(i, need, 0);
  }

  /** Channels d.. of frame i. */
  function Fill(s: seq<int16>, n: nat, i: nat, have: nat, need: nat, d: nat): (r: seq<int16>)
    requires Fits(s, n, have, need) && i < n && d <= need && have > 0
    ensures |r| == |s|
    decreases need - d
  {
    if d == need then s
    else
      InBuffer(s, n, have, need, i, d);
      Fill(s[At(i, need, d) := s[At(i, have, Source(d, have))]], n, i, have, need, d + 1)
  }

  /** Frames k - 1 down to 0. */
  function Expand(s: seq<int16>, n: nat, k: nat, have: nat, need: nat): (r: seq<int16>)
    requires Fits(s, n, have, need) && k <= n && have > 0
    ensures |r| == |s|
    decreases k
  {
    if k == 0 then s else Expand(Fill(s, n, k - 1, have, need, 0), n, k - 1, have, need)
  }

  /** The loop variable has 16 bits with a sign: with more than 32768 frames it starts out negative. */
  function Frames(n: uint16): nat {
    if n <= 0x8000 then n else 0
  }

  /** The inner loop: one frame. */
  method ExpandFrame(pcm: array<int16>, ghost n: nat, i: nat, have: uint8, need: uint8)
    requires Fits(pcm[..], n, have, need) && i < n && have > 0
    modifies pcm
    ensures pcm[..] == Fill(old(pcm[..]), n, i, have, need, 0)
  {
    var d: nat := 0;
    while d < need
      invariant 0 <= d <= need
      invariant Fill(pcm[..], n, i, have, need, d) == Fill(old(pcm[..]), n, i, have, need, 0)
    {
      InBuffer(pcm[..], n, have, need, i, d);
      ghost var s := pcm[..];
      pcm[i * need + d] := pcm[i * have + d % have];
      assert pcm[..] == s[At(i, need, d) := s[At(i, have, Source(d, have))]];
      d := d + 1;
    }
  }

  method DuplicateAudioChannels(pcm: array<int16>, n: uint16, have: uint8, need: uint8)
    requires Fits(pcm[..], n, have, need) && have > 0
    modifies pcm
    ensures pcm[..] == Expand(old(pcm[..]), n, Frames(n), have, need)
  {
    hide At, Fill;
    var i: int := ToInt16(n - 1);
    while i >= 0
      invariant -1 <= i < n || (i < 0 && Frames(n) == 0)
      invariant Expand(pcm[..], n, if i >= 0 then i + 1 else 0, have, need)
                == Expand(old(pcm[..]), n, Frames(n), have, need)
      decreases i
    {
      ExpandFrame(pcm, n, i, have, need);
      i := i - 1;
    }
  }

  /** Every frame of the result repeats the channels of the same frame of the input, round robin. */
  predicate Correct(s: seq<int16>, r: seq<int16>, n: nat, have: nat, need: nat)
    requires have > 0
  {
    forall i, d :: 0 <= i < n && 0 <= d < need ==>
      At(i, need, d) < |r| && At(i, have, Source(d, have)) < |s| && r[At(i, need, d)] == s[At(i, have, Source(d, have))]
  }

  /** Sample d of output frame i is sample d modulo `have` of input frame i. */
  lemma CorrectMeans(s: seq<int16>, r: seq<int16>, n: nat, have: nat, need: nat, i: nat, d: nat)
    requires have > 0 && i < n && d < need && Correct(s, r, n, have, need)
    ensures 0 <= i * need + d < |r| && 0 <= i * have + d % have < |s|
    ensures r[i * need + d] == s[i * have + d % have]
  {
    assert At(i, need, d) == i * need + d && At(i, have, Source(d, have)) == i * have + d % have;
  }

  /** When the expansion does what it should, whatever the buffer holds. */
  predicate Sound(n: uint16, have: nat, need: nat) {
    if n > 0x8000 then need == have || need == 0
    else n <= 1 || need == have || need >= 2 * have || (need < have && (n == 2 || At(n, need, 0) <= have))
  }

  /** Frame i is written in one stretch. */
  predicate InFrame(p: nat, i: nat, w: nat) { At(i, w, 0) <= p < At(i + 1, w, 0) }

  lemma {:induction false} FillOutside(s: seq<int16>, n: nat, i: nat, have: nat, need: nat, d: nat, p: nat)
    requires Fits(s, n, have, need) && i < n && d <= need && have > 0 && p < |s|
    requires p < At(i, need, d) || p >= At(i + 1, need, 0)
    ensures Fill(s, n, i, have, need, d)[p] == s[p]
    decreases need - d
  {
    if d < need {
      InBuffer(s, n, have, need, i, d);
      AtStep(i, need, d);
      AtStep(i, need, d + 1);
      AtStep(i, need, 0);
      FillOutside(s[At(i, need, d) := s[At(i, have, Source(d, have))]], n, i, have, need, d + 1, p);
    }
  }

  /** Writing channel c leaves sample p alone, or writes back what is there. */
  predicate Harmless(i: nat, have: nat, need: nat, c: nat, p: nat)
    requires have > 0
  {
    At(i, need, c) != p || At(i, need, c) == At(i, have, Source(c, have))
  }

  lemma {:induction false} FillReads(s: seq<int16>, n: nat, i: nat, have: nat, need: nat, d: nat, e: nat)
    requires Fits(s, n, have, need) && i < n && d <= e < need && have > 0
    requires forall c :: d <= c < e ==> Harmless(i, have, need, c, At(i, have, Source(e, have)))
    ensures |Fill(s, n, i, have, need, d)| == |s| && At(i, need, e) < |s| && At(i, have, Source(e, have)) < |s|
    ensures Fill(s, n, i, have, need, d)[At(i, need, e)] == s[At(i, have, Source(e, have))]
    decreases need - d
  {
    InBuffer(s, n, have, need, i, e);
    InBuffer(s, n, have, need, i, d);
    var t := s[At(i, need, d) := s[At(i, have, Source(d, have))]];
    if d == e {
      AtStep(i, need, d);
      AtStep(i, need, d + 1);
      FillOutside(t, n, i, have, need, d + 1, At(i, need, e));
    } else {
      assert Harmless(i, have, need, d, At(i, have, Source(e, have)));
      FillReads(t, n, i, have, need, d + 1, e);
    }
  }

  lemma {:induction false} ExpandAbove(s: seq<int16>, n: nat, k: nat, have: nat, need: nat, p: nat)
    requires Fits(s, n, have, need) && k <= n && have > 0 && At(k, need, 0) <= p < |s|
    ensures Expand(s, n, k, have, need)[p] == s[p]
    decreases k
  {
    if k > 0 {
      AtStep(k - 1, need, 0);
      FillOutside(s, n, k - 1, have, need, 0, p);
      ExpandAbove(Fill(s, n, k - 1, have, need, 0), n, k - 1, have, need, p);
    }
  }

  /** The sources of frame i are still untouched when their turn comes. */
  predicate Untouched(n: nat, i: nat, d: nat, have: nat, need: nat)
    requires have > 0
  {
    && (forall j :: i < j < n ==> !InFrame(At(i, have, Source(d, have)), j, need))
    && (forall c :: 0 <= c < d ==> Harmless(i, have, need, c, At(i, have, Source(d, have))))
  }

  lemma {:induction false} ExpandReads(s: seq<int16>, n: nat, k: nat, i: nat, d: nat, have: nat, need: nat)
    requires Fits(s, n, have, need) && i < k <= n && d < need && have > 0 && Untouched(n, i, d, have, need)
    ensures At(i, need, d) < |s| && At(i, have, Source(d, have)) < |s|
    ensures Expand(s, n, k, have, need)[At(i, need, d)] == s[At(i, have, Source(d, have))]
    decreases k
  {
    InBuffer(s, n, have, need, i, d);
    var t := Fill(s, n, k - 1, have, need, 0);
    if i == k - 1 {
      FillReads(s, n, i, have, need, 0, d);
      AtStep(i, need, d);
      ExpandAbove(t, n, k - 1, have, need, At(i, need, d));
    } else {
      ExpandReads(t, n, k - 1, i, d, have, need);
      assert !InFrame(At(i, have, Source(d, have)), k - 1, need);
      FillOutside(s, n, k - 1, have, need, 0, At(i, have, Source(d, have)));
    }
  }

  lemma {:induction false} AtMonotone(i: nat, v: nat, w: nat)
    requires v <= w
    ensures At(i, v, 0) <= At(i, w, 0)
  {
    if i > 0 {
      AtMonotone(i - 1, v, w);
      AtStep(i - 1, v, 0);
      AtStep(i - 1, w, 0);
    }
  }

  /** Twice as wide a frame, from the second one on, lies above the next narrow frame. */
  lemma {:induction false} AtDouble(i: nat, have: nat, need: nat)
    requires i >= 1 && need >= 2 * have
    ensures At(i + 1, have, 0) <= At(i, need, 0)
  {
    AtStep(i, have, 0);
    AtStep(i - 1, have, 0);
    AtStep(i - 1, need, 0);
    if i > 1 {
      AtDouble(i - 1, have, need);
    } else {
      AtStep(0, have, 0);
      AtStep(0, need, 0);
    }
  }

  lemma LaterFrames(n: uint16, i: nat, d: nat, have: nat, need: nat, j: nat)
    requires Sound(n, have, need) && n <= 0x8000 && i < j < n && d < need && have > 0
    ensures !InFrame(At(i, have, Source(d, have)), j, need)
  {
    hide At, Source;
    AtStep(i, have, Source(d, have));
    AtStep(i, have, 0);
    if need >= have {
      FramesApart(i, j, need);
      AtMonotone(i + 1, have, need);
    } else if i == 0 {
      AtStep(0, have, d);
      AtStep(0, need, 0);
      FramesApart(0, j, need);
    } else {
      FramesApart(j, n, need);
      FramesApart(0, i, have);
      AtStep(0, have, 0);
      FramesApart(0, i + 1, have);
    }
  }

  lemma SameFrame(n: uint16, i: nat, d: nat, have: nat, need: nat, c: nat)
    requires Sound(n, have, need) && n <= 0x8000 && i < n && c < d < need && have > 0
    ensures Harmless(i, have, need, c, At(i, have, Source(d, have)))
  {
    hide At, Source;
    AtStep(i, have, Source(d, have));
    AtStep(i, have, 0);
    AtStep(i, need, c);
    AtStep(0, need, c);
    AtStep(0, have, Source(c, have));
    if need < have {
      AtMonotone(i, need, have);
    } else if need >= 2 * have && i > 0 {
      AtDouble(i, have, need);
    }
  }

  lemma SoundIsCorrect(s: seq<int16>, n: uint16, have: nat, need: nat)
    requires Fits(s, n, have, need) && have > 0 && Sound(n, have, need)
    ensures Correct(s, Expand(s, n, Frames(n), have, need), n, have, need)
  {
    assert Expand(s, n, 0, have, need) == s;
    hide At, InFrame, Harmless, Expand;
    forall i, d | 0 <= i < n && 0 <= d < need
      ensures At(i, need, d) < |s| && At(i, have, Source(d, have)) < |s|
      ensures Expand(s, n, Frames(n), have, need)[At(i, need, d)] == s[At(i, have, Source(d, have))]
    {
      InBuffer(s, n, have, need, i, d);
      if n <= 0x8000 {
        forall j | i < j < n ensures !InFrame(At(i, have, Source(d, have)), j, need) {
          LaterFrames(n, i, d, have, need, j);
        }
        forall c | 0 <= c < d ensures Harmless(i, have, need, c, At(i, have, Source(d, have))) {
          SameFrame(n, i, d, have, need, c);
        }
        ExpandReads(s, n, n, i, d, have, need);
      }
    }
  }

  predicate ZeroBut(s: seq<int16>, p: nat) {
    forall x :: 0 <= x < |s| && x != p ==> s[x] == 0
  }

  /** A buffer with a single one, at p. */
  function Indicator(len: nat, p: nat): (s: seq<int16>)
    requires p < len
    ensures |s| == len && s[p] == 1 && ZeroBut(s, p)
  {
    seq(len, x => if x == p then 1 else 0)
  }

  lemma ZeroUpdate(s: seq<int16>, w: nat, src: nat, p: nat)
    requires w < |s| && src < |s| && src != p && ZeroBut(s, p)
    ensures ZeroBut(s[w := s[src]], if w == p then |s| else p)
  {
  }

  lemma {:induction false} ZeroFill(s: seq<int16>, n: nat, i: nat, have: nat, need: nat, d: nat, p: nat)
    requires Fits(s, n, have, need) && i < n && d <= need && have > 0 && ZeroBut(s, p)
    requires !InFrame(p, i, have) || p >= |s|
    ensures ZeroBut(Fill(s, n, i, have, need, d),
                    if p < |s| && At(i, need, d) <= p < At(i + 1, need, 0) then |s| else p)
    decreases need - d
  {
    hide At, Source, ZeroBut;
    AtStep(i, need, d);
    AtStep(i, need, 0);
    if d < need {
      InBuffer(s, n, have, need, i, d);
      AtStep(i, have, Source(d, have));
      AtStep(i, have, 0);
      AtStep(i, need, d + 1);
      var w, src := At(i, need, d), At(i, have, Source(d, have));
      ZeroUpdate(s, w, src, p);
      ZeroFill(s[w := s[src]], n, i, have, need, d + 1, if w == p then |s| else p);
    }
  }

  lemma {:induction false} ZeroExpand(s: seq<int16>, n: nat, k: nat, have: nat, need: nat)
    requires Fits(s, n, have, need) && k <= n && have > 0 && ZeroBut(s, |s|)
    ensures ZeroBut(Expand(s, n, k, have, need), |s|)
    decreases k
  {
    if k > 0 {
      ZeroFill(s, n, k - 1, have, need, 0, |s|);
      ZeroExpand(Fill(s, n, k - 1, have, need, 0), n, k - 1, have, need);
    }
  }

  /** A single one below the sources of frame 2 is never copied by frames 2 and up, but one of them may erase it. */
  lemma {:induction false} HighFrames(s: seq<int16>, n: nat, k: nat, have: nat, need: nat, p: nat)
    returns (t: seq<int16>)
    requires Fits(s, n, have, need) && 2 <= k <= n && have > 0 && ZeroBut(s, p) && (p < At(2, have, 0) || p >= |s|)
    ensures |t| == |s| && Expand(s, n, k, have, need) == Expand(t, n, 2, have, need)
    ensures ZeroBut(t, if p < |s| && At(2, need, 0) <= p < At(k, need, 0) then |s| else p)
    decreases k
  {
    hide At, ZeroBut;
    if k == 2 {
      t := s;
    } else {
      FramesApart(1, k - 1, have);
      ZeroFill(s, n, k - 1, have, need, 0, p);
      FramesApart(1, k - 1, need);
      AtStep(k - 1, need, 0);
      var u := Fill(s, n, k - 1, have, need, 0);
      var q := if p < |s| && InFrame(p, k - 1, need) then |s| else p;
      t := HighFrames(u, n, k - 1, have, need, q);
    }
  }

  function Size(n: nat, have: nat, need: nat): nat { if have < need then At(n, need, 0) else At(n, have, 0) }

  lemma SizeFits(s: seq<int16>, n: nat, have: nat, need: nat)
    requires |s| == Size(n, have, need)
    ensures Fits(s, n, have, need)
  {
    if have < need { AtMonotone(n, have, need); } else { AtMonotone(n, need, have); }
  }

  lemma FirstFrames(w: nat, c: nat)
    ensures At(1, w, c) == w + c && At(2, w, 0) == 2 * w && At(3, w, 0) == 3 * w && At(0, w, 0) == 0
  {
  }

  lemma CorrectAt(s: seq<int16>, r: seq<int16>, n: nat, have: nat, need: nat, i: nat, d: nat)
    requires have > 0 && i < n && d < need
    ensures Correct(s, r, n, have, need) ==>
      At(i, need, d) < |r| && At(i, have, Source(d, have)) < |s| && r[At(i, need, d)] == s[At(i, have, Source(d, have))]
  {
  }

  /** A result without the one is wrong. */
  lemma OneIsMissing(s: seq<int16>, r: seq<int16>, n: nat, have: nat, need: nat, d: nat)
    requires 0 < have && 1 < n && d < need && d < have && |r| == |s| && At(1, have, d) < |s|
    requires s[At(1, have, d)] == 1 && ZeroBut(r, |r|)
    ensures !Correct(s, r, n, have, need)
  {
    assert At(1, have, Source(d, have)) == At(1, have, d);
    CorrectAt(s, r, n, have, need, 1, d);
  }

  /** Too many frames: nothing is written at all. */
  lemma FailsTooMany(s: seq<int16>, n: uint16, have: nat, need: nat)
    requires n > 0x8000 && have > 0 && need != have && need > 0
    requires |s| == Size(n, have, need) && have < |s| && s == Indicator(|s|, have)
    ensures !Correct(s, s, n, have, need)
  {
    FirstFrames(have, 0);
    FirstFrames(need, 0);
    CorrectAt(s, s, n, have, need, 1, 0);
  }

  /** A bit wider: channel need - have of frame 1 is overwritten before it is read. */
  lemma FailsWider(s: seq<int16>, n: nat, have: nat, need: nat)
    requires 2 <= n && have < need < 2 * have && |s| == Size(n, have, need) && need < |s| && s == Indicator(|s|, need)
    ensures Fits(s, n, have, need) && !Correct(s, Expand(s, n, n, have, need), n, have, need)
  {
    SizeFits(s, n, have, need);
    FirstFrames(have, need - have);
    FirstFrames(have, 0);
    FirstFrames(need, 0);
    hide At, ZeroBut, Correct, Source;
    var t := HighFrames(s, n, n, have, need, need);
    ZeroUpdate(t, need, have, need);
    InBuffer(t, n, have, need, 1, 0);
    var u := t[need := t[have]];
    assert Fill(t, n, 1, have, need, 0) == Fill(u, n, 1, have, need, 1);
    ZeroFill(u, n, 1, have, need, 1, |u|);
    assert Expand(t, n, 2, have, need) == Expand(Fill(u, n, 1, have, need, 1), n, 1, have, need);
    ZeroExpand(Fill(u, n, 1, have, need, 1), n, 1, have, need);
    OneIsMissing(s, Expand(s, n, n, have, need), n, have, need, need - have);
  }

  /** Narrower: a later frame is moved over the sources of frame 1. */
  lemma FailsNarrower(s: seq<int16>, n: nat, have: nat, need: nat, p: nat)
    requires 3 <= n && 0 < need < have < At(n, need, 0) && |s| == Size(n, have, need)
    requires p == (if have < 2 * need then 2 * need else have) && p < |s| && s == Indicator(|s|, p)
    ensures Fits(s, n, have, need) && !Correct(s, Expand(s, n, n, have, need), n, have, need)
  {
    SizeFits(s, n, have, need);
    FirstFrames(have, p - have);
    FirstFrames(have, 0);
    FirstFrames(need, 0);
    FramesApart(2, n, need);
    hide At, ZeroBut, Correct, Source;
    var t := HighFrames(s, n, n, have, need, p);
    ZeroExpand(t, n, 2, have, need);
    OneIsMissing(s, Expand(s, n, n, have, need), n, have, need, p - have);
  }

  lemma Unsound(n: uint16, have: nat, need: nat) returns (s: seq<int16>)
    requires have > 0 && !Sound(n, have, need)
    ensures |s| == Size(n, have, need) && Fits(s, n, have, need)
    ensures !Correct(s, Expand(s, n, Frames(n), have, need), n, have, need)
  {
    var size := Size(n, have, need);
    FirstFrames(have, 0);
    FirstFrames(need, 0);
    FramesApart(1, n, have);
    FramesApart(1, n, need);
    if n > 0x8000 {
      s := Indicator(size, have);
      SizeFits(s, n, have, need);
      FailsTooMany(s, n, have, need);
    } else if have < need {
      s := Indicator(size, need);
      FailsWider(s, n, have, need);
    } else {
      FramesApart(2, n, need);
      AtMonotone(n, need, have);
      var p := if have < 2 * need then 2 * need else have;
      s := Indicator(size, p);
      FailsNarrower(s, n, have, need, p);
    }
  }

  /** Exactly when the expansion is right for every buffer. */
  lemma CorrectIff(n: uint16, have: nat, need: nat)
    requires have > 0
    ensures Sound(n, have, need) <==>
      forall s: seq<int16> {:trigger Expand(s, n, Frames(n), have, need)} ::
        |s| == Size(n, have, need) && Fits(s, n, have, need)
        ==> Correct(s, Expand(s, n, Frames(n), have, need), n, have, need)
  {
    if Sound(n, have, need) {
      forall s: seq<int16> | |s| == Size(n, have, need) && Fits(s, n, have, need)
        ensures Correct(s, Expand(s, n, Frames(n), have, need), n, have, need)
      {
        SoundIsCorrect(s, n, have, need);
      }
    } else {
      var s := Unsound(n, have, need);
    }
  }
}
