/** What the event queue promises over whole runs: order, capacity, exclusive slots and no lost wakeup. */
module EventQueueTheorems {
  import opened Options
  import opened EventQueue

  /** The tasks whose exchange on the tail succeeded among the first `n` steps, in that order. */
  ghost function Reservations<T>(tr: seq<State<T>>, acts: seq<Action<T>>, n: nat): seq<Option<T>>
    requires n <= |acts| && |tr| == |acts| + 1
  {
    if n == 0 then []
    else
      var before := Reservations(tr, acts, n - 1);
      match acts[n - 1]
      case Produce(c, _) =>
        if tr[n].tail != tr[n - 1].tail && c < |tr[n - 1].producers| then before + [Some(tr[n - 1].producers[c].item)]
        else before
      case _ => before
  }

  lemma StepItems<T>(s: State<T>, a: Action<T>)
    requires Inv(s)
    ensures var r := Next(s, a);
            r.Some? ==>
              Items(r.value.log, |r.value.log|) ==
              if a.Produce? && r.value.tail != s.tail then Items(s.log, |s.log|) + [Some(s.producers[a.c].item)]
              else Items(s.log, |s.log|)
  {
    hide CellOk, ProducerOk, WorkerOk, BackLink, Awake;
  }

  lemma StepTail<T>(s: State<T>, a: Action<T>)
    requires Inv(s)
    ensures var r := Next(s, a); r.Some? && a.Produce? ==> a.c < |s.producers|
  {
  }

  lemma {:induction false} LogIsReservationOrder<T>(cap: nat, tr: seq<State<T>>, acts: seq<Action<T>>, n: nat)
    requires Run(cap, tr, acts) && 0 < cap < SIZE_MAX_PLUS_1 && n <= |acts|
    ensures Items(tr[n].log, |tr[n].log|) == Reservations(tr, acts, n)
  {
    hide Inv, Next;
    if n > 0 {
      LogIsReservationOrder(cap, tr, acts, n - 1);
      RunKeeps(cap, tr, acts, n - 1);
      assert StepAt(tr, acts, n - 1);
      StepItems(tr[n - 1], acts[n - 1]);
      StepTail(tr[n - 1], acts[n - 1]);
    }
  }

  lemma PrefixOf<T>(s: State<T>)
    requires Inv(s)
    ensures Finished(s) <= |s.log| && s.ran <= Items(s.log, |s.log|)
  {
    hide CellOk, ProducerOk, BackLink, Awake;
  }

  /** The tasks run are the reserved ones, once each and in reservation order, up to some point. */
  lemma RunsReservationPrefix<T>(cap: nat, tr: seq<State<T>>, acts: seq<Action<T>>, n: nat)
    requires Run(cap, tr, acts) && 0 < cap < SIZE_MAX_PLUS_1 && n <= |acts|
    ensures tr[n].ran <= Reservations(tr, acts, n)
  {
    RunKeeps(cap, tr, acts, n);
    LogIsReservationOrder(cap, tr, acts, n);
    PrefixOf(tr[n]);
  }

  /** Never more than `cap` tasks between the two ends, although producers decide on heads that may be stale. */
  lemma OccupancyBounded<T>(cap: nat, tr: seq<State<T>>, acts: seq<Action<T>>, n: nat)
    requires Run(cap, tr, acts) && 0 < cap < SIZE_MAX_PLUS_1 && n < |tr|
    ensures tr[n].head <= tr[n].tail <= tr[n].head + cap
  {
    RunKeeps(cap, tr, acts, n);
  }

  ghost predicate Writing(pc: ProducerPc) {
    pc.Write? || pc.Commit?
  }

  /** The slot a producer writes is neither another producer's nor the one the worker is emptying. */
  ghost predicate OwnsSlot<T>(s: State<T>, c: nat)
    requires c < |s.producers| && Writing(s.producers[c].pc) && |s.cells| > 0
  {
    var p := Position(s.producers[c].pc);
    && (forall d :: 0 <= d < |s.producers| && d != c && Writing(s.producers[d].pc) ==>
                      Position(s.producers[d].pc) % |s.cells| != p % |s.cells|)
    && (s.worker.Move? || s.worker.Clear? ==> s.worker.h % |s.cells| != p % |s.cells|)
  }

  lemma WriterIsInWindow<T>(s: State<T>, c: nat)
    requires Inv(s) && c < |s.producers| && Writing(s.producers[c].pc)
    ensures var p := Position(s.producers[c].pc);
            0 <= Base(s) <= p < Base(s) + |s.cells| && p < |s.log| && !s.log[p].committed && s.log[p].call == c
  {
    hide CellOk, BackLink, Awake;
    BaseIsNatural(s);
    assert ProducerOk(s, c);
  }

  lemma WriterOwnsItsSlotNow<T>(s: State<T>, c: nat)
    requires Inv(s) && c < |s.producers| && Writing(s.producers[c].pc)
    ensures OwnsSlot(s, c)
  {
    hide CellOk, ProducerOk, BackLink, Awake;
    var p := Position(s.producers[c].pc);
    WriterIsInWindow(s, c);
    forall d | 0 <= d < |s.producers| && d != c && Writing(s.producers[d].pc)
      ensures Position(s.producers[d].pc) % |s.cells| != p % |s.cells|
    {
      WriterIsInWindow(s, d);
      SlotsApart(Base(s), |s.cells|, p, Position(s.producers[d].pc));
    }
    if s.worker.Move? || s.worker.Clear? {
      SlotsApart(Base(s), |s.cells|, p, s.worker.h);
    }
  }

  lemma WriterOwnsItsSlot<T>(cap: nat, tr: seq<State<T>>, acts: seq<Action<T>>, n: nat, c: nat)
    requires Run(cap, tr, acts) && 0 < cap < SIZE_MAX_PLUS_1 && n < |tr|
    requires c < |tr[n].producers| && Writing(tr[n].producers[c].pc)
    ensures OwnsSlot(tr[n], c)
  {
    RunKeeps(cap, tr, acts, n);
    WriterOwnsItsSlotNow(tr[n], c);
  }

  /** A push is refused exactly if the queue is full, or the worker has overtaken the tail the push had loaded. */
  lemma RefusalIsExact<T>(cap: nat, tr: seq<State<T>>, acts: seq<Action<T>>, n: nat, c: nat)
    requires Run(cap, tr, acts) && 0 < cap < SIZE_MAX_PLUS_1 && n < |tr|
    requires c < |tr[n].producers| && tr[n].producers[c].pc.LoadHead?
    requires tr[n].head <= tr[n].producers[c].pc.t + SIZE_MAX_PLUS_1 - cap
    ensures var r := ProduceStep(tr[n], c, false);
            var t := tr[n].producers[c].pc.t;
            r.Some? && (r.value.producers[c].pc == Refused <==>
                          tr[n].head > t || (t == tr[n].tail && t == tr[n].head + cap))
  {
    RunKeeps(cap, tr, acts, n);
    var s := tr[n];
    assert ProducerOk(s, c);
    FullMeans(s.producers[c].pc.t, s.head, cap);
  }

  /**
   * No lost wakeup: a queued task whose producer has nothing left to do finds the worker able to move. Either it is
   * still draining, or an edge with a non-zero counter is waiting for it.
   */
  lemma NoLostWakeup<T>(cap: nat, tr: seq<State<T>>, acts: seq<Action<T>>, n: nat, p: nat)
    requires Run(cap, tr, acts) && 0 < cap < SIZE_MAX_PLUS_1 && n < |tr|
    requires tr[n].head <= p < |tr[n].log|
    ensures WakePending(tr[n], p) || tr[n].worker != EpollWait || (tr[n].ready && tr[n].counter > 0)
    ensures !WakePending(tr[n], p) ==>
              var r := WorkStep(tr[n], false); r.Some? && (tr[n].worker == EpollWait ==> r.value.worker == ReadEvent)
  {
    RunKeeps(cap, tr, acts, n);
    hide CellOk, ProducerOk, BackLink, WorkerOk;
  }

  ghost predicate AllPosted<T>(s: State<T>) {
    forall c :: 0 <= c < |s.producers| ==> s.producers[c].pc.Returned? || s.producers[c].pc.Refused?
  }

  lemma NobodyPending<T>(s: State<T>, p: nat)
    requires AllPosted(s)
    ensures !WakePending(s, p)
  {
  }

  /** When every post has returned and the worker sleeps with no event due, every accepted task has run. */
  lemma AsleepMeansDone<T>(cap: nat, tr: seq<State<T>>, acts: seq<Action<T>>, n: nat)
    requires Run(cap, tr, acts) && 0 < cap < SIZE_MAX_PLUS_1 && n <= |acts|
    requires AllPosted(tr[n]) && tr[n].worker == EpollWait && !(tr[n].ready && tr[n].counter > 0)
    ensures tr[n].ran == Reservations(tr, acts, n)
    ensures forall c :: 0 <= c < |tr[n].producers| && tr[n].producers[c].pc.Returned? ==>
                          Some(tr[n].producers[c].item) in tr[n].ran
  {
    RunKeeps(cap, tr, acts, n);
    LogIsReservationOrder(cap, tr, acts, n);
    var s := tr[n];
    if s.head < |s.log| {
      NobodyPending(s, s.head);
    }
    assert s.ran == Items(s.log, |s.log|);
    forall c | 0 <= c < |s.producers| && s.producers[c].pc.Returned?
      ensures Some(s.producers[c].item) in s.ran
    {
      assert ProducerOk(s, c);
      assert s.ran[s.producers[c].pc.p] == Some(s.producers[c].item);
    }
  }

  // ----- who waits for whom -----

  lemma UncommittedIsFree<T>(s: State<T>, p: nat)
    requires Inv(s) && p < |s.log| && !s.log[p].committed && p != Base(s) + |s.cells|
    ensures !s.cells[p % |s.cells|].committed
  {
    hide BackLink, Awake, ProducerOk;
    BaseIsNatural(s);
    assert CellOk(s, p);
  }

  lemma WaitsNow<T>(s: State<T>, c: nat, p: nat)
    requires Inv(s) && c < |s.producers| && s.producers[c].pc == WaitSlot(p)
    ensures s.cells[p % |s.cells|].committed <==> (s.worker.Move? || s.worker.Clear?) && s.worker.h + |s.cells| == p
  {
    hide BackLink, Awake, CellOk;
    BaseIsNatural(s);
    assert ProducerOk(s, c);
    if p == Base(s) + |s.cells| {
      LapAheadIsBusy(s, p);
    } else {
      UncommittedIsFree(s, p);
    }
  }

  /** A producer waits for its slot exactly while the worker is moving out the task of the lap before. */
  lemma WaitsForThePreviousLap<T>(cap: nat, tr: seq<State<T>>, acts: seq<Action<T>>, n: nat, c: nat, p: nat)
    requires Run(cap, tr, acts) && 0 < cap < SIZE_MAX_PLUS_1 && n < |tr|
    requires c < |tr[n].producers| && tr[n].producers[c].pc == WaitSlot(p)
    ensures ProduceStep(tr[n], c, false).None?
       <==> (tr[n].worker.Move? || tr[n].worker.Clear?) && tr[n].worker.h + cap == p
  {
    RunKeeps(cap, tr, acts, n);
    WaitsNow(tr[n], c, p);
  }

  /** The worker goes on from a slot exactly if the producer of the oldest task has committed it. */
  lemma PopsExactlyCommitted<T>(cap: nat, tr: seq<State<T>>, acts: seq<Action<T>>, n: nat)
    requires Run(cap, tr, acts) && 0 < cap < SIZE_MAX_PLUS_1 && n < |tr| && tr[n].worker.CheckCommitted?
    ensures var h := tr[n].worker.h;
            && h == tr[n].head < |tr[n].log| && tr[n].log[h].call < |tr[n].producers|
            && var pc := tr[n].producers[tr[n].log[h].call].pc;
               WorkStep(tr[n], false).value.worker == PopCas(h) <==> pc == Wake(h) || pc == Returned(h)
  {
    RunKeeps(cap, tr, acts, n);
    var s := tr[n];
    assert CellOk(s, s.head);
    assert ProducerOk(s, s.log[s.head].call);
  }
}
