/** Requests of the crypto engine, the record of what happens to them, and what that record must satisfy. */
module QueueModel {
  import opened Widths
  import opened Sequences

  type Bytes = seq<uint8>

  /** Software stands for the AES, CMAC and CCM operations, which take some turns of the scheduler loop. */
  datatype Operation = Random(size: uint16) | Software(turns: nat) | GenerateKey | CalculateDhKey

  /** next: what the callback of the request submits in turn. */
  datatype Request = Request(id: nat, op: Operation, next: Requests)
  datatype Requests = NoMore | Then(first: Request, rest: Requests)

  /** A queued request: the buffer filled so far, and how much is left to do. */
  datatype Queued = Queued(request: Request, buffer: Bytes, left: nat)

  datatype GenState = Idle | GeneratingRandom | Active | Done

  datatype Outcome = Finished | Filled(buffer: Bytes) | Key(pool: Bytes, key: Bytes) | Dropped

  /** How a request leaves the queue; delivered is all random data that arrived while it was head. */
  datatype Leave = Leave(request: Request, outcome: Outcome, delivered: Bytes)

  /** A call of a request entry point, from outside or from a callback, after some departures. */
  datatype Attempt = Attempt(request: Request, outside: bool, departures: nat, accepted: bool)

  datatype Event = Submission(request: Request) | RandomData(data: Bytes) | Halting | OtherEvent

  const RANDOM_SIZE := 64

  function Enqueued(r: Request): Queued {
    Queued(r, [], match r.op case Random(size) => size case Software(turns) => turns case _ => 0)
  }

  /** A request joins the queue with nothing done for it yet. */
  lemma EnqueuedIs(r: Request)
    ensures Enqueued(r).request == r && Enqueued(r).buffer == []
    ensures (r.op.Random? ==> Enqueued(r).left == r.op.size) && (r.op.Software? ==> Enqueued(r).left == r.op.turns)
  {
  }

  predicate NotQueued(q: seq<Queued>, id: nat) {
    forall i :: 0 <= i < |q| ==> q[i].request.id != id
  }

  // ----- How much is left to do

  /** Turns and requests still to come, counting those that callbacks submit. */
  function Weight(q: Queued): nat {
    1 + (if q.request.op.Software? then q.left else 0) + RequestsWeight(q.request.next)
  }

  function RequestWeight(r: Request): (w: nat)
    ensures w == 1 + (if r.op.Software? then r.op.turns else 0) + RequestsWeight(r.next)
  {
    1 + (if r.op.Software? then r.op.turns else 0) + RequestsWeight(r.next)
  }

  function RequestsWeight(rs: Requests): nat {
    match rs
    case NoMore => 0
    case Then(first, rest) => RequestWeight(first) + RequestsWeight(rest)
  }

  function QueueWeight(q: seq<Queued>): nat {
    if q == [] then 0 else Weight(q[0]) + QueueWeight(q[1..])
  }

  lemma {:induction false} QueueWeightAppend(q: seq<Queued>, e: Queued)
    ensures QueueWeight(q + [e]) == QueueWeight(q) + Weight(e)
  {
    if q == [] {
      assert (q + [e])[1..] == [];
    } else {
      assert (q + [e])[1..] == q[1..] + [e];
      QueueWeightAppend(q[1..], e);
    }
  }

  // ----- Departures

  function Requested(q: seq<Queued>): seq<Request> {
    seq(|q|, i requires 0 <= i < |q| => q[i].request)
  }

  function Departed(leaves: seq<Leave>): seq<Request> {
    seq(|leaves|, i requires 0 <= i < |leaves| => leaves[i].request)
  }

  /** The requests that were completed, not dropped. */
  function Completed(leaves: seq<Leave>): seq<Request> {
    if leaves == [] then []
    else
      var last := leaves[|leaves| - 1];
      Completed(leaves[..|leaves| - 1]) + if last.outcome.Dropped? then [] else [last.request]
  }

  /** All random data that departed requests were given, in order. */
  function Delivered(leaves: seq<Leave>): Bytes {
    if leaves == [] then [] else Delivered(leaves[..|leaves| - 1]) + leaves[|leaves| - 1].delivered
  }

  /** b is the end of a. */
  predicate EndsWith(a: Bytes, b: Bytes) {
    |b| <= |a| && a[|a| - |b|..] == b
  }

  /** Every request got what it asked for: random data in the order it arrived, from what arrived while it was
      head and no more payloads of that than needed; or the key made from 64 random bytes, which are the last
      ones it was given, unless it was given none and shares the key of a request before it. */
  predicate Served(l: Leave, makeKey: Bytes -> Bytes) {
    l.outcome.Dropped? ||
    match l.request.op
    case Random(size) =>
      && l.outcome.Filled? && |l.delivered| == (if size == 0 then 8 else (size + 7) / 8 * 8)
      && l.outcome.buffer == l.delivered[..size]
    case GenerateKey =>
      && l.outcome.Key? && |l.outcome.pool| == 64 && l.outcome.key == makeKey(l.outcome.pool)
      && (l.delivered != [] ==> EndsWith(l.delivered, l.outcome.pool))
    case _ => l.outcome.Finished? && l.delivered == []
  }

  predicate AllServed(leaves: seq<Leave>, makeKey: Bytes -> Bytes) {
    forall i :: 0 <= i < |leaves| ==> Served(leaves[i], makeKey)
  }

  /** The request being served holds what was delivered so far and still needs the rest. */
  predicate InService(q: Queued, delivered: Bytes, genState: GenState, pool: Bytes) {
    match q.request.op
    case Random(size) =>
      && q.buffer == delivered && q.left + |delivered| == size
      && |delivered| % 8 == 0 && (q.left > 0 || delivered == [])
    case GenerateKey =>
      genState == GeneratingRandom || (genState == Done && delivered != []) ==> EndsWith(delivered, pool)
    case _ => delivered == []
  }

  predicate Waiting(q: seq<Queued>) {
    forall i :: 1 <= i < |q| ==> q[i] == Enqueued(q[i].request)
  }

  lemma LeaveMore(leaves: seq<Leave>, l: Leave)
    ensures Departed(leaves + [l]) == Departed(leaves) + [l.request]
    ensures Completed(leaves + [l]) == Completed(leaves) + if l.outcome.Dropped? then [] else [l.request]
    ensures Delivered(leaves + [l]) == Delivered(leaves) + l.delivered
  {
    assert (leaves + [l])[..|leaves|] == leaves;
  }

  lemma LeaveOne(leaves: seq<Leave>, q: seq<Queued>, l: Leave)
    requires q != [] && l.request == q[0].request && !l.outcome.Dropped?
    ensures Departed(leaves) + Requested(q) == Departed(leaves + [l]) + Requested(q[1..])
    ensures Completed(leaves + [l]) == Completed(leaves) + [l.request]
    ensures Delivered(leaves + [l]) == Delivered(leaves) + l.delivered
  {
    LeaveMore(leaves, l);
    hide Completed, Delivered, Departed;
    assert Requested(q) == [l.request] + Requested(q[1..]);
  }

  /** Behind a served head, the next request starts with nothing delivered. */
  lemma ServeNext(leaves: seq<Leave>, q: seq<Queued>, l: Leave, makeKey: Bytes -> Bytes,
                  genState: GenState, pool: Bytes)
    requires q != [] && Waiting(q) && AllServed(leaves, makeKey) && Served(l, makeKey) && genState != GeneratingRandom
    ensures Waiting(q[1..]) && (|q| > 1 ==> InService(q[1..][0], [], genState, pool))
    ensures AllServed(leaves + [l], makeKey)
    ensures QueueWeight(q) > QueueWeight(q[1..]) + RequestsWeight(q[0].request.next)
  {
  }

  lemma JoinOne(leaves: seq<Leave>, q: seq<Queued>, r: Request)
    ensures Departed(leaves) + Requested(q) + [r] == Departed(leaves) + Requested(q + [Enqueued(r)])
    ensures Waiting(q) ==> Waiting(q + [Enqueued(r)])
  {
  }

  lemma FirstStays(q: seq<Queued>, e: Queued, r: seq<Queued>)
    requires r == q + [e]
    ensures r != [] && r[0] == if q == [] then e else q[0]
  {
  }

  /** A request that finds the queue empty starts with nothing delivered. */
  lemma JoinFirst(r: Request, genState: GenState, pool: Bytes)
    ensures genState != GeneratingRandom ==> InService(Enqueued(r), [], genState, pool)
    ensures Weight(Enqueued(r)) == RequestWeight(r)
  {
  }

  lemma NothingQueued()
    ensures Requested([]) == [] && Waiting([])
  {
  }

  /** No callback is called more often than its request was submitted. */
  lemma {:induction false} CalledAtMostOnce(leaves: seq<Leave>, q: seq<Queued>)
    ensures multiset(Completed(leaves)) <= multiset(Departed(leaves) + Requested(q))
  {
    if leaves != [] {
      var before, last := leaves[..|leaves| - 1], leaves[|leaves| - 1];
      CalledAtMostOnce(before, q);
      assert leaves == before + [last];
      LeaveMore(before, last);
      hide Completed, Departed, Requested;
    }
  }

  /** A halt drops the whole queue; only its head had been given random data. */
  function DropAll(q: seq<Queued>, delivered: Bytes): seq<Leave> {
    seq(|q|, i requires 0 <= i < |q| => Leave(q[i].request, Dropped, if i == 0 then delivered else []))
  }

  lemma {:induction false} AfterDropAll(leaves: seq<Leave>, q: seq<Queued>, delivered: Bytes, makeKey: Bytes -> Bytes)
    requires q == [] ==> delivered == []
    ensures Completed(leaves + DropAll(q, delivered)) == Completed(leaves)
    ensures Departed(leaves + DropAll(q, delivered)) == Departed(leaves) + Requested(q)
    ensures AllServed(leaves, makeKey) ==> AllServed(leaves + DropAll(q, delivered), makeKey)
    ensures Delivered(leaves + DropAll(q, delivered)) == Delivered(leaves) + delivered
    decreases |q|
  {
    if q == [] {
      NothingBehind(leaves);
      NothingBehind(Delivered(leaves));
      NothingBehind(Departed(leaves));
    } else {
      var n := |q| - 1;
      var first := if n == 0 then [] else delivered;
      var l := Leave(q[n].request, Dropped, if n == 0 then delivered else []);
      DropLast(leaves, q, delivered);
      AfterDropAll(leaves, q[..n], first, makeKey);
      LeaveMore(leaves + DropAll(q[..n], first), l);
      hide Completed, Departed, Delivered, DropAll;
      assert Requested(q) == Requested(q[..n]) + [q[n].request];
      Assoc(Departed(leaves), Requested(q[..n]), [q[n].request]);
      Assoc(Delivered(leaves), first, l.delivered);
      assert first + l.delivered == delivered;
    }
  }

  lemma DropLast(leaves: seq<Leave>, q: seq<Queued>, delivered: Bytes)
    requires q != []
    ensures var n := |q| - 1;
            leaves + DropAll(q, delivered)
            == (leaves + DropAll(q[..n], if n == 0 then [] else delivered))
               + [Leave(q[n].request, Dropped, if n == 0 then delivered else [])]
  {
  }

  // ----- Submissions

  function Accepted(attempts: seq<Attempt>): seq<Request> {
    if attempts == [] then []
    else
      var last := attempts[|attempts| - 1];
      Accepted(attempts[..|attempts| - 1]) + if last.accepted then [last.request] else []
  }

  /** What was submitted from outside, in order. */
  function Outside(attempts: seq<Attempt>): seq<Request> {
    if attempts == [] then []
    else
      var last := attempts[|attempts| - 1];
      Outside(attempts[..|attempts| - 1]) + if last.outside then [last.request] else []
  }

  /** What callbacks submitted. */
  function Inside(attempts: seq<Attempt>): multiset<Request> {
    if attempts == [] then multiset{}
    else
      var last := attempts[|attempts| - 1];
      Inside(attempts[..|attempts| - 1]) + if last.outside then multiset{} else multiset{last.request}
  }

  function Members(rs: Requests): multiset<Request> {
    match rs case NoMore => multiset{} case Then(first, rest) => multiset{first} + Members(rest)
  }

  lemma MembersThen(rs: Requests)
    ensures rs.NoMore? ==> Members(rs) == multiset{} && RequestsWeight(rs) == 0
    ensures rs.Then? ==>
      && Members(rs) == multiset{rs.first} + Members(rs.rest) && rs.first in Members(rs)
      && RequestsWeight(rs) == RequestWeight(rs.first) + RequestsWeight(rs.rest)
  {
  }

  /** What the callbacks of these requests submit. */
  function Wanted(called: seq<Request>): multiset<Request> {
    if called == [] then multiset{} else Wanted(called[..|called| - 1]) + Members(called[|called| - 1].next)
  }

  /** The queue at an attempt holds the requests accepted before it that have not departed; the request is
      refused exactly if its id is among them. */
  predicate Fair(attempts: seq<Attempt>) {
    forall k :: 0 <= k < |attempts| ==> FairAt(attempts, k)
  }

  predicate FairAt(attempts: seq<Attempt>, k: nat)
    requires k < |attempts|
  {
    var before, gone := Accepted(attempts[..k]), attempts[k].departures;
    && gone <= |before|
    && (attempts[k].accepted <==> forall i :: gone <= i < |before| ==> before[i].id != attempts[k].request.id)
  }

  lemma AttemptOne(attempts: seq<Attempt>, a: Attempt)
    ensures Accepted(attempts + [a]) == Accepted(attempts) + if a.accepted then [a.request] else []
    ensures Outside(attempts + [a]) == Outside(attempts) + if a.outside then [a.request] else []
    ensures Inside(attempts + [a]) == Inside(attempts) + if a.outside then multiset{} else multiset{a.request}
  {
    assert (attempts + [a])[..|attempts|] == attempts;
  }

  lemma FairOne(attempts: seq<Attempt>, a: Attempt, leaves: seq<Leave>, q: seq<Queued>)
    requires Fair(attempts) && Accepted(attempts) == Departed(leaves) + Requested(q)
    requires a.departures == |leaves| && a.accepted == NotQueued(q, a.request.id)
    ensures Fair(attempts + [a])
  {
    var all, n := attempts + [a], |leaves|;
    var before := Accepted(attempts);
    assert all[..|attempts|] == attempts;
    assert forall i :: 0 <= i < |q| ==> before[n + i] == q[i].request;
    assert forall i :: n <= i < |before| ==> before[i] == q[i - n].request;
    forall k | 0 <= k < |all|
      ensures FairAt(all, k)
    {
      if k < |attempts| {
        assert all[..k] == attempts[..k] && all[k] == attempts[k];
        assert FairAt(attempts, k);
      }
    }
  }

  lemma CallOne(called: seq<Request>, r: Request)
    ensures Wanted(called + [r]) == Wanted(called) + Members(r.next)
  {
    assert (called + [r])[..|called|] == called;
  }

  /** The requests are submitted by callbacks, in this order, possibly with others in between. */
  predicate Tried(rs: Requests, attempts: seq<Attempt>) {
    match rs
    case NoMore => true
    case Then(first, rest) =>
      exists i :: 0 <= i < |attempts| && IsTry(attempts[i], first) && Tried(rest, attempts[i + 1..])
  }

  predicate IsTry(a: Attempt, r: Request) { a.request == r && !a.outside }

  lemma {:induction false} TriedLater(rs: Requests, attempts: seq<Attempt>, n: nat)
    requires n <= |attempts| && Tried(rs, attempts[n..])
    ensures Tried(rs, attempts)
  {
    match rs
    case NoMore =>
    case Then(first, rest) =>
      var i :| 0 <= i < |attempts[n..]| && IsTry(attempts[n..][i], first) && Tried(rest, attempts[n..][i + 1..]);
      assert attempts[n..][i + 1..] == attempts[n + i + 1..] && IsTry(attempts[n + i], first);
  }

  lemma IsInside(a: Attempt)
    requires !a.outside
    ensures IsTry(a, a.request)
  {
  }

  lemma TriedNone(attempts: seq<Attempt>)
    ensures Tried(NoMore, attempts)
  {
  }

  lemma TriedAll(first: Request, rest: Requests, a: seq<Attempt>, x: Attempt, b: seq<Attempt>, c: seq<Attempt>)
    requires a + [x] <= b <= c && IsTry(x, first) && Tried(rest, c[|b|..])
    ensures a <= c && Tried(Then(first, rest), c[|a|..])
  {
    hide Tried;
    var n := |b| - |a|;
    assert c[|a|..][n..] == c[|b|..] && c[|a|..][0] == x;
    TriedFirst(first, rest, c[|a|..], n);
  }

  lemma TriedFirst(first: Request, rest: Requests, attempts: seq<Attempt>, n: nat)
    requires 0 < n <= |attempts| && IsTry(attempts[0], first) && Tried(rest, attempts[n..])
    ensures Tried(Then(first, rest), attempts)
  {
    assert attempts[1..][n - 1..] == attempts[n..];
    TriedLater(rest, attempts[1..], n - 1);
  }

  // ----- What an event does, from one state of the engine to the next

  /** Everything that can be observed of the engine. */
  datatype Snap = Snap(queue: seq<Queued>, waiting: bool, genState: GenState, random: Bytes, attempts: seq<Attempt>,
                       leaves: seq<Leave>, called: seq<Request>, payloads: seq<Bytes>, delivered: Bytes)

  /** The head left first, in this way, and its callback was called. */
  predicate HeadLeft(s: Snap, t: Snap, outcome: Outcome, all: Bytes)
    requires s.queue != []
  {
    var r := s.queue[0].request;
    s.leaves + [Leave(r, outcome, all)] <= t.leaves && s.called + [r] <= t.called
  }

  /** The record of requests is as it was. */
  predicate SameRecord(s: Snap, t: Snap) {
    t.leaves == s.leaves && t.called == s.called && t.attempts == s.attempts
  }

  /** A payload fills the buffer of a random request further, or the request leaves with the first bytes of what
      was delivered to it. */
  predicate Poured(s: Snap, t: Snap, data: Bytes)
    requires s.queue != [] && |data| == 8
  {
    var head := s.queue[0];
    if head.left > 8 then
      && t.queue == [head.(buffer := head.buffer + data, left := head.left - 8)] + s.queue[1..]
      && t.delivered == s.delivered + data && SameRecord(s, t)
    else HeadLeft(s, t, Filled(head.buffer + data[..head.left]), s.delivered + data)
  }

  /** A payload for key generation goes to the pool, and a full pool becomes the key. */
  predicate Pooled(s: Snap, t: Snap, data: Bytes) {
    && t.random == s.random + data && t.delivered == s.delivered + data
    && t.genState == (if |t.random| < 64 then GeneratingRandom else Done)
    && t.queue == s.queue && SameRecord(s, t)
  }

  /** What a payload that was waited for does; the engine then goes on as far as it can. */
  predicate Used(s: Snap, t: Snap, data: Bytes, makeKey: Bytes -> Bytes)
    requires s.queue != [] && |data| == 8
  {
    var pool := s.random + data;
    if s.queue[0].request.op.Random? then Poured(s, t, data)
    else (
      Pooled(s, t, data)
      || (|pool| >= 64 && HeadLeft(s, t, Key(pool, makeKey(pool)), s.delivered + data)))
  }

  /** The request was accepted behind the others, or refused, and nothing else happened. */
  predicate Joined(s: Snap, t: Snap, r: Request, outside: bool) {
    var accepted := NotQueued(s.queue, r.id);
    && t.attempts == s.attempts + [Attempt(r, outside, |s.leaves|, accepted)]
    && t.queue == (if accepted then s.queue + [Enqueued(r)] else s.queue)
    && t.genState == (if r.op.GenerateKey? && s.genState == Done then Idle else s.genState)
    && t.leaves == s.leaves && t.called == s.called && t.payloads == s.payloads && t.delivered == s.delivered
    && t.random == s.random
  }

  /** One event. While an answer is awaited, nothing but a submission, the answer or a halt has any effect. */
  predicate Step(s: Snap, e: Event, t: Snap, makeKey: Bytes -> Bytes) {
    && s.leaves <= t.leaves && s.called <= t.called && s.attempts <= t.attempts
    && match e
       case Submission(r) =>
         && s.attempts + [Attempt(r, true, |s.leaves|, NotQueued(s.queue, r.id))] <= t.attempts
         && Outside(t.attempts) == Outside(s.attempts) + [r] && t.payloads == s.payloads
         && (s.waiting ==> Joined(s, t, r, true) && t.waiting)
       case RandomData(data) =>
         if s.waiting then
           && Outside(t.attempts) == Outside(s.attempts) && t.payloads == s.payloads + [data]
           && s.queue != [] && |data| == 8 && Used(s, t, data, makeKey)
         else t == s
       case Halting =>
         && t == s.(queue := [], waiting := false, genState := Idle, delivered := [],
                    leaves := s.leaves + DropAll(s.queue, s.delivered))
       case OtherEvent =>
         Outside(t.attempts) == Outside(s.attempts) && t.payloads == s.payloads && (s.waiting ==> t == s)
  }

  /** The payloads among these events that came while they were awaited. */
  function Answers(snaps: seq<Snap>, events: seq<Event>): seq<Bytes>
    requires |snaps| == |events| + 1
  {
    if events == [] then []
    else
      var n := |events| - 1;
      Answers(snaps[..n + 1], events[..n])
      + if events[n].RandomData? && snaps[n].waiting then [events[n].data] else []
  }

  function Submissions(events: seq<Event>): seq<Request> {
    if events == [] then []
    else
      var n := |events| - 1;
      Submissions(events[..n]) + if events[n].Submission? then [events[n].request] else []
  }

  /** The states between the events of a run. */
  predicate Run(snaps: seq<Snap>, events: seq<Event>, makeKey: Bytes -> Bytes) {
    |snaps| == |events| + 1 && forall i :: 0 <= i < |events| ==> Step(snaps[i], events[i], snaps[i + 1], makeKey)
  }

  lemma StepRecords(s: Snap, e: Event, t: Snap, makeKey: Bytes -> Bytes)
    requires Step(s, e, t, makeKey)
    ensures Outside(t.attempts) == Outside(s.attempts) + if e.Submission? then [e.request] else []
    ensures t.payloads == s.payloads + if e.RandomData? && s.waiting then [e.data] else []
  {
    hide Outside, Used, Joined, DropAll;
  }

  lemma RunPrefix(snaps: seq<Snap>, events: seq<Event>, makeKey: Bytes -> Bytes)
    requires Run(snaps, events, makeKey) && events != []
    ensures Run(snaps[..|events|], events[..|events| - 1], makeKey)
    ensures Step(snaps[|events| - 1], events[|events| - 1], snaps[|events|], makeKey)
  {
    hide Step;
  }

  /** Over a run, exactly what was submitted arrives in the record, and exactly the awaited payloads are taken,
      both in the order of the events. */
  lemma {:induction false} RunRecords(snaps: seq<Snap>, events: seq<Event>, makeKey: Bytes -> Bytes)
    requires Run(snaps, events, makeKey)
    ensures Outside(snaps[|events|].attempts) == Outside(snaps[0].attempts) + Submissions(events)
    ensures snaps[|events|].payloads == snaps[0].payloads + Answers(snaps, events)
    decreases |events|
  {
    hide Step, Outside;
    if events != [] {
      var n := |events| - 1;
      RunPrefix(snaps, events, makeKey);
      StepRecords(snaps[n], events[n], snaps[n + 1], makeKey);
      RunRecords(snaps[..n + 1], events[..n], makeKey);
    }
  }
}
