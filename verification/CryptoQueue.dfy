/** The request queue of the crypto engine: requests are served first come first served, with at most
    one HCI command under way, and callbacks may submit further requests while the engine is running. */
module CryptoQueue {
  import opened Widths
  import opened Sequences
  import opened QueueModel

  class Engine {
    /** The environment, asked at every step: is the stack up, and can a command be sent? */
    const working: nat -> bool
    const canSend: nat -> bool
    /** Key generation from 64 random bytes. */
    const makeKey: Bytes -> Bytes
    var time: nat
    var queue: seq<Queued>
    var waiting: bool
    var genState: GenState
    var random: Bytes
    var publicKey: Bytes
    /** Every submission, every departure, every callback and every answer that was waited for, in order. */
    ghost var attempts: seq<Attempt>
    ghost var leaves: seq<Leave>
    ghost var called: seq<Request>
    ghost var payloads: seq<Bytes>
    /** What callbacks that are running have still to submit. */
    ghost var pending: multiset<Request>
    /** Commands sent and not answered, and the request of the last one. */
    ghost var outstanding: nat
    ghost var awaited: Request
    /** Random data that arrived since the head became the head. */
    ghost var delivered: Bytes

    constructor (working: nat -> bool, canSend: nat -> bool, makeKey: Bytes -> Bytes)
      ensures Valid() && queue == [] && attempts == [] && leaves == [] && payloads == [] && pending == multiset{}
    {
      this.working, this.canSend, this.makeKey := working, canSend, makeKey;
      time, queue, waiting, genState, random, publicKey := 0, [], false, Idle, [], [];
      attempts, leaves, called, payloads, pending, outstanding, delivered := [], [], [], [], multiset{}, 0, [];
    }

    ghost predicate Valid()
      reads this
    {
      Core() && if queue == [] then delivered == [] else InService(queue[0], delivered, genState, random)
    }

    ghost predicate Core()
      reads this
    {
      History() && Callbacks() && OneCommand() && Generating() && Waiting(queue)
    }

    /** First come, first served: what was accepted has departed or is queued, in that order; and what was
        delivered went to the requests in the same order. */
    ghost predicate History()
      reads this`attempts, this`leaves, this`queue, this`payloads, this`delivered
    {
      && Accepted(attempts) == Departed(leaves) + Requested(queue)
      && AllServed(leaves, makeKey) && Fair(attempts)
      && Flat(payloads) == Delivered(leaves) + delivered
    }

    /** Callbacks follow departures one for one, and submit all they want. */
    ghost predicate Callbacks()
      reads this`called, this`leaves, this`attempts, this`pending
    {
      called == Completed(leaves) && Inside(attempts) + pending == Wanted(called)
    }

    /** One command at most is under way, and it belongs to the head of the queue. */
    ghost predicate OneCommand()
      reads this`waiting, this`outstanding, this`queue, this`awaited, this`genState
    {
      && outstanding == (if waiting then 1 else 0)
      && (waiting ==>
            && queue != [] && awaited == queue[0].request
            && (awaited.op.Random? || genState == GeneratingRandom))
    }

    ghost predicate Generating()
      reads this`genState, this`queue, this`random, this`publicKey
    {
      && genState != Active
      && (genState == GeneratingRandom ==>
            queue != [] && queue[0].request.op.GenerateKey? && |random| < RANDOM_SIZE && |random| % 8 == 0)
      && (genState == Done ==> |random| == RANDOM_SIZE && publicKey == makeKey(random))
    }

    /** Unless the environment held it up, the engine has nothing left to do on its own. */
    ghost predicate Settled()
      reads this
    {
      (forall t :: working(t) && canSend(t)) ==> queue == [] || waiting
    }

    /** The head cannot go on without random data. */
    ghost predicate NeedsData()
      reads this
    {
      queue != [] && (queue[0].request.op.Random? || (queue[0].request.op.GenerateKey? && genState != Done))
    }

    twostate predicate Extends()
      reads this
    {
      old(attempts) <= attempts && old(leaves) <= leaves && old(called) <= called
    }

    /** No request came or went, and no data arrived. */
    twostate predicate SameRequests()
      reads this
    {
      && queue == old(queue) && attempts == old(attempts) && leaves == old(leaves) && called == old(called)
      && payloads == old(payloads) && delivered == old(delivered) && pending == old(pending)
    }

    /** Nothing changed but the time. */
    twostate predicate Still()
      reads this
    {
      && SameRequests() && waiting == old(waiting) && genState == old(genState) && random == old(random)
      && publicKey == old(publicKey) && awaited == old(awaited) && outstanding == old(outstanding)
    }

    /** At most a command was sent, which may have started key generation. */
    twostate predicate OnlySent()
      reads this
    {
      && SameRequests()
      && (old(genState) == GeneratingRandom ==> genState == GeneratingRandom && random == old(random))
    }

    ghost function Now(): Snap
      reads this
    {
      Snap(queue, waiting, genState, random, attempts, leaves, called, payloads, delivered)
    }

    method SendLeRand()
      requires queue != [] && !waiting && outstanding == 0
      modifies this`waiting, this`outstanding, this`awaited
      ensures waiting && outstanding == 1 && awaited == queue[0].request
    {
      waiting, outstanding, awaited := true, outstanding + 1, queue[0].request;
    }

    /** Takes the head off the queue; its callback is about to submit what it wants. */
    method PopHead(ghost outcome: Outcome)
      requires Core() && queue != [] && !waiting && genState != GeneratingRandom
      requires !outcome.Dropped? && Served(Leave(queue[0].request, outcome, delivered), makeKey)
      modifies this`queue, this`leaves, this`called, this`pending, this`delivered
      ensures Valid() && queue == old(queue)[1..] && delivered == []
      ensures var r := old(queue)[0].request;
              && leaves == old(leaves) + [Leave(r, outcome, old(delivered))] && called == old(called) + [r]
              && pending == old(pending) + Members(r.next)
      ensures old(QueueWeight(queue)) > QueueWeight(queue) + RequestsWeight(old(queue)[0].request.next)
    {
      hide Completed, Departed, Delivered, Requested, RequestsWeight, QueueWeight, AllServed, Served,
        Waiting, InService, Accepted, Inside, Wanted, Members, Fair, Flat;
      var request := queue[0].request;
      ghost var l := Leave(request, outcome, delivered);
      LeaveOne(leaves, queue, l);
      ServeNext(leaves, queue, l, makeKey, genState, random);
      CallOne(called, request);
      NothingBehind(Delivered(leaves) + delivered);
      leaves, called, pending := leaves + [l], called + [request], pending + Members(request.next);
      queue, delivered := queue[1..], [];
    }

    /** The head leaves and its callback is called, which submits what it wants, in order. */
    method Complete(ghost outcome: Outcome)
      requires Core() && queue != [] && !waiting && genState != GeneratingRandom
      requires !outcome.Dropped? && Served(Leave(queue[0].request, outcome, delivered), makeKey)
      modifies this
      ensures Valid() && Extends() && payloads == old(payloads) && pending == old(pending)
      ensures HeadLeft(old(Now()), Now(), outcome, old(delivered)) && Outside(attempts) == old(Outside(attempts))
      ensures Tried(old(queue[0].request.next), attempts[|old(attempts)|..])
      ensures QueueWeight(queue) < old(QueueWeight(queue))
      decreases QueueWeight(queue), 1
    {
      hide Core, QueueWeight, RequestsWeight, Members, Tried, Served, InService;
      var next := queue[0].request.next;
      PopHead(outcome);
      SubmitAll(next);
    }

    method SubmitAll(rs: Requests)
      requires Valid() && Members(rs) <= pending
      modifies this
      ensures Valid() && Extends() && payloads == old(payloads) && pending == old(pending) - Members(rs)
      ensures Tried(rs, attempts[|old(attempts)|..]) && Outside(attempts) == old(Outside(attempts))
      ensures QueueWeight(queue) <= old(QueueWeight(queue)) + RequestsWeight(rs)
      decreases QueueWeight(queue) + RequestsWeight(rs), 5, rs
    {
      MembersThen(rs);
      hide Core, QueueWeight, Tried, InService, NotQueued, Outside, IsTry, Members, RequestsWeight;
      match rs
      case NoMore =>
        TriedNone(attempts[|attempts|..]);
      case Then(first, rest) =>
        ghost var before, a := attempts, Attempt(first, false, |leaves|, NotQueued(queue, first.id));
        IsInside(a);
        Submit(first, false);
        ghost var middle := attempts;
        SubmitAll(rest);
        TriedAll(first, rest, before, a, middle, attempts);
    }

    /** The request entry points. */
    method Submit(r: Request, ghost outside: bool)
      requires Valid() && (!outside ==> r in pending)
      modifies this
      ensures Valid() && Extends() && payloads == old(payloads)
      ensures pending == if outside then old(pending) else old(pending) - multiset{r}
      ensures old(attempts) + [Attempt(r, outside, |old(leaves)|, old(NotQueued(queue, r.id)))] <= attempts
      ensures Outside(attempts) == old(Outside(attempts)) + if outside then [r] else []
      ensures old(waiting) ==> Joined(old(Now()), Now(), r, outside) && waiting && awaited == old(awaited)
      ensures Settled() && QueueWeight(queue) <= old(QueueWeight(queue)) + RequestWeight(r)
      decreases QueueWeight(queue) + RequestWeight(r), 4
    {
      hide Core, QueueWeight, InService, Outside, NotQueued, Accepted, Inside;
      AttemptOne(attempts, Attempt(r, outside, |leaves|, NotQueued(queue, r.id)));
      AddTail(r, outside);
      Run();
    }

    method AddTail(r: Request, ghost outside: bool)
      requires Valid() && (!outside ==> r in pending)
      modifies this`genState, this`queue, this`attempts, this`pending
      ensures Valid() && Joined(old(Now()), Now(), r, outside)
      ensures pending == if outside then old(pending) else old(pending) - multiset{r}
      ensures QueueWeight(queue) <= old(QueueWeight(queue)) + RequestWeight(r)
    {
      hide Core, QueueWeight, InService;
      ResetKey(r);
      if exists i :: 0 <= i < |queue| && queue[i].request.id == r.id {
        Refuse(r, outside);
      } else {
        Append(r, outside);
      }
    }

    /** A new key is made for a new request. */
    method ResetKey(r: Request)
      requires Valid()
      modifies this`genState
      ensures Valid() && genState == if r.op.GenerateKey? && old(genState) == Done then Idle else old(genState)
    {
      hide History, Callbacks, Waiting;
      if r.op.GenerateKey? && genState == Done {
        genState := Idle;
      }
    }

    /** The entry of an attempt in the record. */
    method Refuse(r: Request, ghost outside: bool)
      requires Valid() && !NotQueued(queue, r.id) && (!outside ==> r in pending)
      modifies this`attempts, this`pending
      ensures Valid() && attempts == old(attempts) + [Attempt(r, outside, |leaves|, false)]
      ensures pending == if outside then old(pending) else old(pending) - multiset{r}
    {
      hide Completed, AllServed, Requested, Departed, Delivered, Accepted, Inside, Wanted, Fair, Flat,
        Waiting, InService;
      ghost var a := Attempt(r, outside, |leaves|, false);
      AttemptOne(attempts, a);
      FairOne(attempts, a, leaves, queue);
      NothingBehind(Accepted(attempts));
      attempts, pending := attempts + [a], if outside then pending else pending - multiset{r};
    }

    method Append(r: Request, ghost outside: bool)
      requires Valid() && NotQueued(queue, r.id) && (!outside ==> r in pending)
      modifies this`queue, this`attempts, this`pending
      ensures Valid() && queue == old(queue) + [Enqueued(r)]
      ensures attempts == old(attempts) + [Attempt(r, outside, |leaves|, true)]
      ensures pending == if outside then old(pending) else old(pending) - multiset{r}
      ensures QueueWeight(queue) == old(QueueWeight(queue)) + RequestWeight(r)
    {
      hide Completed, AllServed, Requested, Departed, Delivered, Accepted, Inside, Wanted, Fair, Flat,
        Waiting, InService, QueueWeight, RequestWeight, Weight, Enqueued, NotQueued;
      ghost var a := Attempt(r, outside, |leaves|, true);
      AttemptOne(attempts, a);
      FairOne(attempts, a, leaves, queue);
      QueueWeightAppend(queue, Enqueued(r));
      JoinOne(leaves, queue, r);
      JoinFirst(r, genState, random);
      attempts, pending := attempts + [a], if outside then pending else pending - multiset{r};
      var longer := queue + [Enqueued(r)];
      FirstStays(queue, Enqueued(r), longer);
      queue := longer;
    }

    /** btstack_crypto_run */
    method Run()
      requires Valid()
      modifies this
      ensures Valid() && Extends() && payloads == old(payloads) && pending == old(pending)
      ensures Outside(attempts) == old(Outside(attempts))
      ensures old(waiting) || old(queue) == [] ==> Still()
      ensures old(NeedsData()) ==> OnlySent()
      ensures old(!waiting && CompletesNext()) ==>
        Still() || HeadLeft(old(Now()), Now(), old(Completion(queue[0].request.op)), old(delivered))
      ensures queue == [] || waiting || !working(old(time)) || (time > 0 && !canSend(time - 1))
      ensures QueueWeight(queue) <= old(QueueWeight(queue))
      decreases QueueWeight(queue), 3
    {
      hide Core, QueueWeight, InService, Outside, HeadLeft;
      var up := Ask(working);
      if !up { return; }
      while true
        invariant Valid() && Extends() && payloads == old(payloads) && pending == old(pending)
        invariant old(waiting) || old(queue) == [] ==> Still()
        invariant old(NeedsData()) ==> OnlySent() && NeedsData()
        invariant Outside(attempts) == old(Outside(attempts))
        invariant old(!waiting && CompletesNext()) ==>
          (Still() && CompletesNext() && Completion(queue[0].request.op) == old(Completion(queue[0].request.op)))
          || HeadLeft(old(Now()), Now(), old(Completion(queue[0].request.op)), old(delivered))
        invariant QueueWeight(queue) <= old(QueueWeight(queue))
        decreases QueueWeight(queue), if waiting then 0 else 1
      {
        if queue == [] { return; }
        if waiting { return; }
        var clear := Ask(canSend);
        if !clear { return; }
        ghost var before := Now();
        Turn();
        HeadLeftExtends(old(Now()), before, Now(), old(delivered));
      }
    }

    /** One question to the environment. */
    method Ask(oracle: nat -> bool) returns (yes: bool)
      requires Valid()
      modifies this`time
      ensures Valid() && time == old(time) + 1 && yes == oracle(old(time))
    {
      hide History, Callbacks, OneCommand, Generating, Waiting, InService;
      yes := oracle(time);
      time := time + 1;
    }

    /** What a head that needs no data is completed with. */
    function Completion(op: Operation): Outcome
      reads this
    {
      if op.GenerateKey? then Key(random, publicKey) else Finished
    }

    /** The head will be completed in its next turn. */
    ghost predicate CompletesNext()
      reads this
    {
      queue != [] && !NeedsData() && (queue[0].request.op.Software? ==> queue[0].left <= 1)
    }

    /** One turn of the scheduler loop: a head that needs random data has a command sent, a software operation
        comes one turn closer to its end, and any other head is completed. */
    method Turn()
      requires Valid() && queue != [] && !waiting
      modifies this
      ensures Valid() && Extends() && payloads == old(payloads) && pending == old(pending)
      ensures old(NeedsData()) ==> OnlySent() && waiting && NeedsData()
      ensures old(queue[0].request.op.Software? && queue[0].left > 1) ==>
        !waiting && queue == [old(queue[0]).(left := old(queue[0].left) - 1)] + old(queue)[1..]
        && leaves == old(leaves) && called == old(called) && attempts == old(attempts)
      ensures old(CompletesNext()) ==> HeadLeft(old(Now()), Now(), old(Completion(queue[0].request.op)), old(delivered))
      ensures Outside(attempts) == old(Outside(attempts))
      ensures QueueWeight(queue) < old(QueueWeight(queue)) || (QueueWeight(queue) == old(QueueWeight(queue)) && waiting)
      decreases QueueWeight(queue), 2
    {
      hide Completed, AllServed, Departed, Delivered, Requested, QueueWeight, Weight, Accepted, Inside,
        Wanted, Fair, Flat, Waiting, Tried, EndsWith, Outside;
      match queue[0].request.op {
        case Random(_) =>
          SendLeRand();
        case Software(_) =>
          if queue[0].left > 1 {
            TickDown();
          } else {
            Complete(Finished);
          }
        case GenerateKey =>
          match genState {
            case Done =>
              Complete(Key(random, publicKey));
            case Idle =>
              StartGeneration();
              SendLeRand();
            case GeneratingRandom =>
              SendLeRand();
            case Active =>
              assert false;
          }
        case CalculateDhKey =>
          Complete(Finished);
      }
    }

    method StartGeneration()
      requires Valid() && queue != [] && queue[0].request.op.GenerateKey? && genState == Idle
      modifies this`genState, this`random
      ensures Valid() && genState == GeneratingRandom
    {
      hide History, Callbacks, Waiting;
      assert EndsWith(delivered, []);
      genState, random := GeneratingRandom, [];
    }

    method TickDown()
      requires Valid() && queue != [] && !waiting && queue[0].request.op.Software? && queue[0].left > 1
      modifies this`queue
      ensures Valid() && queue == [old(queue[0]).(left := old(queue[0].left) - 1)] + old(queue)[1..]
      ensures QueueWeight(queue) < old(QueueWeight(queue))
    {
      TickedDown(leaves, queue);
      hide Callbacks, AllServed, Departed, Delivered, Requested, Accepted, Fair, Flat, QueueWeight;
      queue := [queue[0].(left := queue[0].left - 1)] + queue[1..];
    }

    // ----- Events

    /** A payload arrives while the head is served. */
    ghost method Deliver(data: Bytes)
      requires Valid()
      modifies this`payloads, this`delivered
      ensures Core() && payloads == old(payloads) + [data] && delivered == old(delivered) + data
    {
      hide Callbacks, Generating, OneCommand, AllServed, Departed, Delivered, Requested, Accepted, Fair,
        Flat, Waiting;
      FlatAppend(payloads, data);
      Assoc(Delivered(leaves), delivered, data);
      payloads, delivered := payloads + [data], delivered + data;
    }

    method FillBuffer(data: Bytes)
      requires Valid() && queue != [] && !waiting && |data| == 8 && queue[0].request.op.Random?
      modifies this
      ensures Valid() && Extends() && payloads == old(payloads) + [data] && pending == old(pending)
      ensures Poured(old(Now()), Now(), data) && Outside(attempts) == old(Outside(attempts))
      ensures old(queue[0].left) > 8 ==> NeedsData() && !waiting
    {
      hide History, Callbacks, Waiting, QueueWeight, InService, Outside, Tried;
      var head := queue[0];
      var n := Min(head.left, 8);
      var buffer, left := head.buffer + data[..n], head.left - n;
      FilledFurther(head, delivered, data, genState, random, makeKey);
      Deliver(data);
      if left > 0 {
        assert data[..8] == data;
        Refill(buffer, left);
      } else {
        Complete(Filled(buffer));
      }
    }

    method Refill(buffer: Bytes, left: nat)
      requires Core() && queue != [] && queue[0].request.op.Random? && !waiting
      requires InService(queue[0].(buffer := buffer, left := left), delivered, genState, random)
      modifies this`queue
      ensures Valid() && queue == [old(queue)[0].(buffer := buffer, left := left)] + old(queue)[1..]
    {
      Refilled(queue, buffer, left);
      hide Callbacks, AllServed, Departed, Delivered, Requested, Accepted, Fair, Flat, Waiting, InService;
      queue := [queue[0].(buffer := buffer, left := left)] + queue[1..];
    }

    /** The random pool never overflows, and a full pool becomes a key at once. */
    method CollectRandom(data: Bytes)
      requires Valid() && queue != [] && !waiting && |data| == 8 && genState == GeneratingRandom
      modifies this`random, this`genState, this`publicKey, this`payloads, this`delivered
      ensures Valid() && Pooled(old(Now()), Now(), data) && payloads == old(payloads) + [data]
      ensures genState == GeneratingRandom || CompletesNext()
    {
      hide History, Callbacks, Waiting, EndsWith;
      assert |random| + 8 <= RANDOM_SIZE;
      EndsWithMore(delivered, random, data);
      Deliver(data);
      random := random + data;
      if |random| >= RANDOM_SIZE {
        genState := Active;
        publicKey := makeKey(random);
        genState := Done;
      }
    }

    /** The random data of a command that was answered just now. */
    method HandleRandomData(data: Bytes)
      requires Valid() && queue != [] && !waiting && |data| == 8
      requires queue[0].request.op.Random? || genState == GeneratingRandom
      modifies this
      ensures Valid() && Extends() && Settled() && payloads == old(payloads) + [data] && pending == old(pending)
      ensures Outside(attempts) == old(Outside(attempts)) && Used(old(Now()), Now(), data, makeKey)
    {
      hide History, Callbacks, InService, Outside, QueueWeight, Waiting;
      match queue[0].request.op {
        case Random(_) =>
          FillBuffer(data);
        case GenerateKey =>
          CollectRandom(data);
        case _ =>
          assert false;
      }
      Run();
    }

    /** The command under way was answered. */
    method TakeAnswer()
      requires Valid() && waiting
      modifies this`waiting, this`outstanding
      ensures Valid() && !waiting && queue != [] && (queue[0].request.op.Random? || genState == GeneratingRandom)
    {
      hide History, Callbacks, Generating, Waiting, InService;
      waiting, outstanding := false, outstanding - 1;
    }

    /** An answer nobody waits for is ignored. */
    method AnswerRandom(data: Bytes)
      requires Valid() && |data| == 8
      modifies this
      ensures Valid() && Extends() && (old(Settled()) ==> Settled()) && pending == old(pending)
      ensures !old(waiting) ==> Still()
      ensures old(waiting) ==> payloads == old(payloads) + [data] && Used(old(Now()), Now(), data, makeKey)
      ensures Outside(attempts) == old(Outside(attempts))
    {
      hide History, Callbacks, InService, Outside, QueueWeight, Waiting;
      if !waiting { return; }
      TakeAnswer();
      HandleRandomData(data);
      Run();
    }

    method StateReset()
      requires Valid()
      modifies this`genState, this`waiting, this`queue, this`leaves, this`outstanding, this`delivered
      ensures Valid() && Extends() && queue == [] && !waiting && genState == Idle && delivered == []
      ensures leaves == old(leaves) + DropAll(old(queue), old(delivered))
    {
      hide Completed, AllServed, Departed, Delivered, Requested, Accepted, Inside, Wanted, Fair, Flat,
        DropAll, InService, Waiting;
      AfterDropAll(leaves, queue, delivered, makeKey);
      NothingQueued();
      NothingBehind(Departed(leaves + DropAll(queue, delivered)));
      NothingBehind(Delivered(leaves + DropAll(queue, delivered)));
      leaves := leaves + DropAll(queue, delivered);
      outstanding, delivered := 0, [];
      genState, waiting, queue := Idle, false, [];
    }

    /** Shutting down drops every queued request and calls no callback. */
    method Halt()
      requires Valid()
      modifies this
      ensures Valid() && Extends() && queue == [] && !waiting && genState == Idle && delivered == []
      ensures leaves == old(leaves) + DropAll(old(queue), old(delivered)) && called == old(called)
      ensures attempts == old(attempts) && payloads == old(payloads) && pending == old(pending) && random == old(random)
    {
      hide History, Callbacks, InService, QueueWeight, Waiting, DropAll, Outside;
      StateReset();
      Run();
    }
  }

  /** What left first stays what left first. */
  lemma HeadLeftExtends(s: Snap, t: Snap, u: Snap, all: Bytes)
    requires t.leaves <= u.leaves && t.called <= u.called
    ensures s.queue != [] ==> forall outcome :: HeadLeft(s, t, outcome, all) ==> HeadLeft(s, u, outcome, all)
  {
  }

  lemma TickedDown(leaves: seq<Leave>, q: seq<Queued>)
    requires q != [] && q[0].request.op.Software? && q[0].left > 1
    ensures var r := [q[0].(left := q[0].left - 1)] + q[1..];
            Requested(r) == Requested(q) && (Waiting(q) ==> Waiting(r)) && QueueWeight(r) < QueueWeight(q)
  {
    var r := [q[0].(left := q[0].left - 1)] + q[1..];
    assert r[1..] == q[1..];
  }

  lemma Refilled(q: seq<Queued>, buffer: Bytes, left: nat)
    requires q != [] && !q[0].request.op.Software?
    ensures var r := [q[0].(buffer := buffer, left := left)] + q[1..];
            Requested(r) == Requested(q) && (Waiting(q) ==> Waiting(r))
  {
  }

  /** A payload for a random request: more of it is filled in, or it holds all it asked for. */
  lemma FilledFurther(q: Queued, delivered: Bytes, data: Bytes, genState: GenState, pool: Bytes,
                      makeKey: Bytes -> Bytes)
    requires InService(q, delivered, genState, pool) && q.request.op.Random? && |data| == 8
    ensures q.left > 8 ==>
      InService(q.(buffer := q.buffer + data[..8], left := q.left - 8), delivered + data, genState, pool)
    ensures q.left <= 8 ==>
      Served(Leave(q.request, Filled(q.buffer + data[..q.left]), delivered + data), makeKey)
  {
    assert data[..8] == data;
  }

  lemma EndsWithMore(a: Bytes, b: Bytes, data: Bytes)
    requires EndsWith(a, b)
    ensures EndsWith(a + data, b + data)
  {
  }
}
