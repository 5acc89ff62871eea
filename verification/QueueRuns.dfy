/** Whole runs of the crypto engine: any sequence of submissions, answers, halts and other events. */
module QueueRuns {
  import opened Sequences
  import opened QueueModel
  import opened CryptoQueue

  /** An entry point is called, or the event handler gets an event. */
  method Apply(e: Engine, event: Event)
    requires e.Valid() && (event.RandomData? ==> |event.data| == 8)
    modifies e
    ensures e.Valid() && e.pending == old(e.pending) && (old(e.Settled()) ==> e.Settled())
    ensures Step(old(e.Now()), event, e.Now(), e.makeKey)
  {
    match event {
      case Submission(r) =>
        e.Submit(r, true);
      case RandomData(data) =>
        e.AnswerRandom(data);
      case Halting =>
        e.Halt();
      case OtherEvent =>
        e.Run();
    }
  }

  predicate WellFormedEvents(events: seq<Event>) {
    forall i :: 0 <= i < |events| && events[i].RandomData? ==> |events[i].data| == 8
  }

  /** Whatever happens in whatever order, every event has its effect on the engine and no other, and the record of
      the run is that of its events: what is submitted from outside, and the payloads that are awaited. */
  method Drive(e: Engine, events: seq<Event>) returns (ghost snaps: seq<Snap>)
    requires e.Valid() && WellFormedEvents(events)
    modifies e
    ensures e.Valid() && e.pending == old(e.pending) && (old(e.Settled()) ==> e.Settled())
    ensures Run(snaps, events, e.makeKey) && snaps[0] == old(e.Now()) && snaps[|events|] == e.Now()
    ensures Outside(e.attempts) == old(Outside(e.attempts)) + Submissions(events)
    ensures e.payloads == old(e.payloads) + Answers(snaps, events)
  {
    hide Step;
    snaps := [e.Now()];
    for i := 0 to |events|
      invariant e.Valid() && e.pending == old(e.pending) && (old(e.Settled()) ==> e.Settled())
      invariant |snaps| == i + 1 && snaps[0] == old(e.Now()) && snaps[i] == e.Now()
      invariant Run(snaps, events[..i], e.makeKey)
    {
      Apply(e, events[i]);
      RunMore(snaps, events, i, e.Now(), e.makeKey);
      snaps := snaps + [e.Now()];
    }
    assert events[..|events|] == events;
    RunRecords(snaps, events, e.makeKey);
  }

  lemma RunMore(snaps: seq<Snap>, events: seq<Event>, i: nat, t: Snap, makeKey: Bytes -> Bytes)
    requires i < |events| && Run(snaps, events[..i], makeKey) && Step(snaps[i], events[i], t, makeKey)
    ensures Run(snaps + [t], events[..i + 1], makeKey)
  {
    hide Step;
  }

  /** What a valid engine has served so far: accepted requests left or are queued in the order of acceptance, and
      all awaited random data went to them in that order. */
  lemma ServedInOrder(e: Engine)
    requires e.Valid()
    ensures Accepted(e.attempts) == Departed(e.leaves) + Requested(e.queue)
    ensures Flat(e.payloads) == Delivered(e.leaves) + e.delivered
    ensures AllServed(e.leaves, e.makeKey) && e.called == Completed(e.leaves)
    ensures e.pending == multiset{} ==> Inside(e.attempts) == Wanted(e.called)
  {
  }

  /** One command at most has been sent and not been answered, and the request it was sent for is the head. */
  lemma OneUnderWay(e: Engine)
    requires e.Valid()
    ensures e.outstanding == (if e.waiting then 1 else 0)
    ensures e.waiting ==> e.queue != [] && e.awaited == e.queue[0].request
  {
  }

  /** The k-th attempt was accepted exactly if no request of its id was accepted before it and had not departed. */
  lemma RefusedIff(e: Engine, k: nat)
    requires e.Valid() && k < |e.attempts|
    ensures var before, a := Accepted(e.attempts[..k]), e.attempts[k];
            && a.departures <= |before|
            && (a.accepted <==> forall i :: a.departures <= i < |before| ==> before[i].id != a.request.id)
  {
    assert FairAt(e.attempts, k);
  }
}
