/** What the ring promises over whole runs: order, completeness, exclusivity of slots and the semaphore count. */
module RingTheorems {
  import opened Slicing
  import opened Options
  import opened Ring
  import opened RingInv
  import opened RingSteps

  /** The messages whose exchange on the tail succeeded among the first `n` steps, in that order. */
  ghost function Reservations(tr: seq<State>, acts: seq<Action>, n: nat): seq<Message>
    requires n <= |acts| && |tr| == |acts| + 1
  {
    if n == 0 then []
    else
      var before := Reservations(tr, acts, n - 1);
      match acts[n - 1]
      case TryCas(c, _) =>
        if tr[n].tail != tr[n - 1].tail && c < |tr[n - 1].senders| then before + [tr[n - 1].senders[c].msg] else before
      case _ => before
  }

  ghost function Messages(log: seq<Entry>): (ms: seq<Message>)
    ensures |ms| == |log|
  {
    seq(|log|, m requires 0 <= m < |log| => log[m].msg)
  }

  /** Nobody dies and no timer fires. */
  ghost predicate Healthy(acts: seq<Action>) {
    forall n :: 0 <= n < |acts| ==> !acts[n].Kill? && !acts[n].Timeout?
  }

  lemma StepMessages(cfg: Config, s: State, a: Action)
    requires Inv(cfg, s)
    ensures var r := Next(Unbounded, cfg, s, a);
            r.Some? ==>
              && (!a.TryCas? ==> Messages(r.value.log) == Messages(s.log))
              && (a.TryCas? ==> a.c < |s.senders| &&
                                Messages(r.value.log) ==
                                if r.value.tail != s.tail then Messages(s.log) + [s.senders[a.c].msg]
                                else Messages(s.log))
  {
    hide LogInv, MemInv, HeadsInv, SenderOk, BackLink, ReaderOk, TokensInv;
    var r := Next(Unbounded, cfg, s, a);
    if a.TryCas? && a.c < |s.senders| && r.Some? {
      NeedBounds(cfg.slotSize, |s.senders[a.c].msg.data|);
      if r.value.tail != s.tail {
        assert r.value.log == s.log + [r.value.log[|s.log|]];
      }
    }
  }

  /** The history log is the reservation order of the run. */
  lemma {:induction false} LogIsReservationOrder(cfg: Config, tr: seq<State>, acts: seq<Action>, n: nat)
    requires Run(Unbounded, cfg, tr, acts) && cfg.Valid() && n <= |acts|
    ensures Messages(tr[n].log) == Reservations(tr, acts, n)
  {
    hide Inv, Next;
    if n > 0 {
      LogIsReservationOrder(cfg, tr, acts, n - 1);
      RunKeeps(cfg, tr, acts, n - 1);
      assert StepAt(Unbounded, cfg, tr, acts, n - 1);
      StepMessages(cfg, tr[n - 1], acts[n - 1]);
    }
  }

  lemma {:induction false} CompletePrefix(cfg: Config, log: seq<Entry>, a: nat, b: nat)
    requires cfg.slotSize >= 6 && a <= b <= |log|
    ensures Complete(cfg, log, a) <= Complete(cfg, log, b)
    decreases b
  {
    if a < b {
      CompletePrefix(cfg, log, a, b - 1);
    }
  }

  /**
   * With dying senders and stall timeouts: what a reader delivered is a prefix of the fully published
   * messages in reservation order. A partial message never surfaces, whatever the interleaving.
   */
  lemma DeliversPublishedPrefix(cfg: Config, tr: seq<State>, acts: seq<Action>, n: nat, i: nat)
    requires Run(Unbounded, cfg, tr, acts) && cfg.Valid() && n < |tr| && i in cfg.readers
    ensures tr[n].readers[i].delivered <= Complete(cfg, tr[n].log, |tr[n].log|)
  {
    RunKeeps(cfg, tr, acts, n);
    var s := tr[n];
    assert ReaderOk(cfg, s.log, s.own, s.heads[i], s.readers[i]);
    CompletePrefix(cfg, s.log, Turn(s.log, s.own, s.readers[i]), |s.log|);
  }

  /** The published head never passes the end of the reservation whose turn it is. */
  lemma InsideTurn(cfg: Config, log: seq<Entry>, own: seq<Own>, head: nat, r: Reader)
    requires cfg.slotSize >= 6 && LogInv(cfg, log, own) && ReaderOk(cfg, log, own, head, r)
    ensures var t := Turn(log, own, r); t < |log| ==> head < log[t].start + NeedOf(cfg, log[t])
  {
    hide Settled, Complete, Boundary;
    if r.asm.count > 0 {
      NextOwner(cfg, log, own, r.head - 1);
      assert EntryOk(cfg, own, log[own[r.head - 1].m]);
    }
  }

  /** A reservation wholly behind the published head is one the reader is done with. */
  lemma PassedMeansTurn(cfg: Config, log: seq<Entry>, own: seq<Own>, head: nat, r: Reader, m: nat)
    requires cfg.slotSize >= 6 && LogInv(cfg, log, own) && ReaderOk(cfg, log, own, head, r)
    requires m < |log| && log[m].start + NeedOf(cfg, log[m]) <= head
    ensures m < Turn(log, own, r)
  {
    hide Settled, Complete, Partial, Boundary;
    var t := Turn(log, own, r);
    assert EntryOk(cfg, own, log[m]);
    if t < m {
      StartsOrdered(cfg, log, own, t, m);
    }
    InsideTurn(cfg, log, own, head, r);
  }

  /**
   * No message of a live sender, and no fully published one, is skipped: once the published head is past it, it is
   * delivered.
   */
  lemma NothingPublishedIsLost(cfg: Config, tr: seq<State>, acts: seq<Action>, n: nat, i: nat, m: nat)
    requires Run(Unbounded, cfg, tr, acts) && cfg.Valid() && n < |tr| && i in cfg.readers && m < |tr[n].log|
    requires var e := tr[n].log[m];
             e.start + cfg.Need(e.msg) <= tr[n].heads[i] && (!e.dead || e.stamped == cfg.Need(e.msg))
    ensures var k := |Complete(cfg, tr[n].log, m)|;
            k < |tr[n].readers[i].delivered| && tr[n].readers[i].delivered[k] == tr[n].log[m].msg
  {
    RunKeeps(cfg, tr, acts, n);
    var s := tr[n];
    var r := s.readers[i];
    assert ReaderOk(cfg, s.log, s.own, s.heads[i], r);
    PassedMeansTurn(cfg, s.log, s.own, s.heads[i], r, m);
    DoneWithIsFinal(cfg, s.log, s.own, s.heads[i], r, m);
    CompletePrefix(cfg, s.log, m + 1, Turn(s.log, s.own, r));
  }

  // ----- nobody dies -----

  ghost predicate AllLive(log: seq<Entry>) {
    forall m :: 0 <= m < |log| ==> !log[m].dead
  }

  lemma StepLive(cfg: Config, s: State, a: Action)
    requires s.Shaped(cfg) && AllLive(s.log) && !a.Kill?
    ensures var r := Next(Unbounded, cfg, s, a); r.Some? ==> AllLive(r.value.log)
  {
  }

  lemma {:induction false} HealthyIsLive(cfg: Config, tr: seq<State>, acts: seq<Action>, n: nat)
    requires Run(Unbounded, cfg, tr, acts) && cfg.Valid() && Healthy(acts) && n < |tr|
    ensures AllLive(tr[n].log)
  {
    if n > 0 {
      HealthyIsLive(cfg, tr, acts, n - 1);
      assert StepAt(Unbounded, cfg, tr, acts, n - 1);
      StepLive(cfg, tr[n - 1], acts[n - 1]);
    }
  }

  /** While nobody dies, what a reader is done with is what it delivered. */
  lemma {:induction false} AllComplete(cfg: Config, log: seq<Entry>, n: nat)
    requires cfg.slotSize >= 6 && n <= |log|
    requires forall m :: 0 <= m < n ==> log[m].stamped == NeedOf(cfg, log[m])
    ensures Complete(cfg, log, n) == Messages(log)[..n]
  {
    if n > 0 {
      AllComplete(cfg, log, n - 1);
      assert Messages(log)[..n] == Messages(log)[..n - 1] + [log[n - 1].msg];
    }
  }

  lemma LiveDelivery(cfg: Config, s: State, i: nat)
    requires Inv(cfg, s) && AllLive(s.log) && i in cfg.readers
    ensures var t := Turn(s.log, s.own, s.readers[i]);
            t <= |s.log| && s.readers[i].delivered == Messages(s.log)[..t] && |s.readers[i].delivered| == t
  {
    var r := s.readers[i];
    assert ReaderOk(cfg, s.log, s.own, s.heads[i], r);
    var t := Turn(s.log, s.own, r);
    forall m | 0 <= m < t
      ensures s.log[m].stamped == NeedOf(cfg, s.log[m])
    {
      DoneWithIsFinal(cfg, s.log, s.own, s.heads[i], r, m);
    }
    AllComplete(cfg, s.log, t);
  }

  /**
   * Every interleaving of live senders: each reader's deliveries are a prefix of the reservation
   * order, every message with its exact bytes and id.
   */
  lemma DeliversReservationPrefix(cfg: Config, tr: seq<State>, acts: seq<Action>, n: nat, i: nat)
    requires Run(Unbounded, cfg, tr, acts) && cfg.Valid() && Healthy(acts) && n <= |acts| && i in cfg.readers
    ensures tr[n].readers[i].delivered <= Reservations(tr, acts, n)
  {
    RunKeeps(cfg, tr, acts, n);
    HealthyIsLive(cfg, tr, acts, n);
    LiveDelivery(cfg, tr[n], i);
    LogIsReservationOrder(cfg, tr, acts, n);
  }

  /** The resynchronising branches of recv_impl are never entered, even with dead senders around. */
  lemma ResyncUnreachable(cfg: Config, tr: seq<State>, acts: seq<Action>, n: nat, i: nat)
    requires Run(Unbounded, cfg, tr, acts) && cfg.Valid() && n < |tr| && i in cfg.readers
    requires tr[n].readers[i].pc == Copy
    ensures var r := tr[n].readers[i];
            var slot := tr[n].slots[r.head % cfg.slotCount];
            if r.asm.count == 0 then !BadStart(cfg.slotSize, slot) else slot.id == r.asm.done
  {
    RunKeeps(cfg, tr, acts, n);
    var s := tr[n];
    assert ReaderOk(cfg, s.log, s.own, s.heads[i], s.readers[i]);
    CopyMeetsItsSlice(cfg, s.log, s.own, s.slots, s.heads[i], s.readers[i]);
  }

  lemma SeesPublishedNow(cfg: Config, s: State, i: nat)
    requires Inv(cfg, s) && i in cfg.readers && s.readers[i].pc.Check?
    ensures s.slots[s.readers[i].head % cfg.slotCount].stamp == s.readers[i].head + 1
       <==> Published(s.log, s.own, s.readers[i].head)
  {
    hide LogInv, SenderOk, BackLink, TokensInv, AsmOk, Complete, Turn, Carries, Settled;
    var r := s.readers[i];
    assert ReaderOk(cfg, s.log, s.own, s.heads[i], r);
    if Published(s.log, s.own, r.head) {
      assert Intact(cfg, s.log, s.own, s.slots, r.head);
    }
  }

  /** A reader's look at the stamp succeeds exactly if the slot at its head has been published. */
  lemma SeesExactlyPublished(cfg: Config, tr: seq<State>, acts: seq<Action>, n: nat, i: nat)
    requires Run(Unbounded, cfg, tr, acts) && cfg.Valid() && n < |tr| && i in cfg.readers
    requires tr[n].readers[i].pc.Check?
    ensures var r := CheckStampStep(Unbounded, cfg, tr[n], i);
            r.Some? && (r.value.readers[i].pc == Copy <==> Published(tr[n].log, tr[n].own, tr[n].readers[i].head))
  {
    RunKeeps(cfg, tr, acts, n);
    SeesPublishedNow(cfg, tr[n], i);
  }

  // ----- slots -----

  /** The capacity bound, although senders decide on heads that may be stale. */
  lemma CapacityHolds(cfg: Config, tr: seq<State>, acts: seq<Action>, n: nat, i: nat)
    requires Run(Unbounded, cfg, tr, acts) && cfg.Valid() && n < |tr| && i in cfg.readers
    ensures tr[n].heads[i] <= tr[n].tail <= tr[n].heads[i] + cfg.slotCount - 1
  {
    RunKeeps(cfg, tr, acts, n);
  }

  /** Sequence numbers that active reader `i` has not let go of. */
  ghost predicate Wanted(cfg: Config, s: State, i: nat, x: nat)
    requires s.Shaped(cfg)
  {
    i in cfg.readers && s.heads[i] <= x < s.tail
  }

  /** The slot that `c` writes is no other sender's and holds nothing that a reader wants or is copying. */
  ghost predicate Exclusive(cfg: Config, s: State, c: nat)
    requires s.Shaped(cfg) && c < |s.senders| && Writing(s.senders[c])
  {
    var at := s.senders[c].pc.at;
    var p := at % cfg.slotCount;
    && (forall d :: 0 <= d < |s.senders| && d != c && Writing(s.senders[d]) ==>
                      s.senders[d].pc.at % cfg.slotCount != p)
    && (forall i: nat, x: nat :: Wanted(cfg, s, i, x) && x != at ==> x % cfg.slotCount != p)
    && (forall i :: i in cfg.readers && s.readers[i].pc == Copy ==> s.readers[i].head % cfg.slotCount != p)
  }

  lemma WriterOwnsItsSlotNow(cfg: Config, s: State, c: nat)
    requires Inv(cfg, s) && c < |s.senders| && Writing(s.senders[c])
    ensures Exclusive(cfg, s, c)
  {
    hide LogInv, MemInv, BackLink, TokensInv, SenderOk, AsmOk, Complete, Turn, Settled;
    var at := s.senders[c].pc.at;
    forall d | 0 <= d < |s.senders| && d != c && Writing(s.senders[d])
      ensures s.senders[d].pc.at % cfg.slotCount != at % cfg.slotCount
    {
      WritersApart(cfg, s, c, d);
    }
    forall i: nat, x: nat | Wanted(cfg, s, i, x) && x != at
      ensures x % cfg.slotCount != at % cfg.slotCount
    {
      NoClash(cfg, s, c, x);
    }
    forall i | i in cfg.readers && s.readers[i].pc == Copy
      ensures s.readers[i].head % cfg.slotCount != at % cfg.slotCount
    {
      assert ReaderOk(cfg, s.log, s.own, s.heads[i], s.readers[i]);
      WrittenSlotIsLive(cfg, s, c);
      NoClash(cfg, s, c, s.readers[i].head);
    }
  }

  /** In every reachable state a sender has its slot to itself, although it was admitted on heads that may be stale. */
  lemma WriterOwnsItsSlot(cfg: Config, tr: seq<State>, acts: seq<Action>, n: nat, c: nat)
    requires Run(Unbounded, cfg, tr, acts) && cfg.Valid() && n < |tr|
    requires c < |tr[n].senders| && Writing(tr[n].senders[c])
    ensures Exclusive(cfg, tr[n], c)
  {
    hide Inv, Exclusive, Next;
    RunKeeps(cfg, tr, acts, n);
    WriterOwnsItsSlotNow(cfg, tr[n], c);
  }

  // ----- semaphores -----

  lemma {:induction false} PostsBound(log: seq<Entry>, i: nat)
    ensures Posts(log, i) <= |log|
    ensures (forall m :: 0 <= m < |log| ==> log[m].posted > i) ==> Posts(log, i) == |log|
  {
    if |log| > 0 {
      PostsBound(log[..|log| - 1], i);
    }
  }

  /** The wait count is one ahead of the deliveries while a recv is under way. */
  ghost predicate InStep(s: State, i: nat)
    requires i < |s.readers|
  {
    var r := s.readers[i];
    r.waits == |r.delivered| + (if r.pc == Idle then 0 else 1) && (r.pc == Publish(true) ==> r.asm.count > 0)
  }

  lemma LookOkTurn(cfg: Config, log: seq<Entry>, own: seq<Own>, head: nat, r: Reader)
    requires cfg.slotSize >= 6 && LogInv(cfg, log, own) && ReaderOk(cfg, log, own, head, r)
    ensures r.pc == Loop && r.head == |own| ==> Turn(log, own, r) == |log|
  {
    if r.pc == Loop {
      LookOk(cfg, log, own, head, r);
    }
  }

  /** A recv that took a token has a reservation in front of it. */
  lemma TokenMeansMessage(cfg: Config, s: State, i: nat)
    requires Inv(cfg, s) && AllLive(s.log) && i in cfg.readers && InStep(s, i) && s.readers[i].pc != Idle
    ensures Turn(s.log, s.own, s.readers[i]) == s.readers[i].waits - 1 < |s.log|
    ensures s.readers[i].pc == Loop ==> s.readers[i].head != s.tail
  {
    LiveDelivery(cfg, s, i);
    PostsBound(s.log, i);
    assert s.tokens[i] + s.readers[i].waits == Posts(s.log, i);
    assert ReaderOk(cfg, s.log, s.own, s.heads[i], s.readers[i]);
    LookOkTurn(cfg, s.log, s.own, s.heads[i], s.readers[i]);
  }

  /** The step kept the count, and if it ended a recv, the first `waits` reservations are delivered. */
  ghost predicate GoodStep(s: State, s': State, i: nat)
    requires i < |s.readers| && i < |s'.readers|
  {
    && InStep(s', i)
    && (s.readers[i].pc != Idle && s'.readers[i].pc == Idle ==>
          0 <= s.readers[i].waits <= |s.log| && s'.readers[i].delivered == Messages(s.log)[..s.readers[i].waits])
  }

  /** A recv that ends after publishing its head hands over the message at the reader's turn. */
  lemma FinishDelivers(cfg: Config, s: State, i: nat)
    requires Inv(cfg, s) && AllLive(s.log) && i in cfg.readers && s.readers[i].pc == Publish(true)
    requires InStep(s, i)
    ensures 0 <= s.readers[i].waits <= |s.log|
    ensures Finish(s.readers[i]).delivered == Messages(s.log)[..s.readers[i].waits]
    ensures |Finish(s.readers[i]).delivered| == s.readers[i].waits
  {
    hide MemInv, HeadsInv, SenderOk, BackLink, Complete, Settled, Partial, Carries, Posts;
    var r := s.readers[i];
    TokenMeansMessage(cfg, s, i);
    LiveDelivery(cfg, s, i);
    assert ReaderOk(cfg, s.log, s.own, s.heads[i], r);
    DeliverOk(cfg, s.log, s.own, s.heads[i], r);
  }

  lemma StepInStep(cfg: Config, s: State, a: Action, i: nat)
    requires Inv(cfg, s) && AllLive(s.log) && i in cfg.readers && InStep(s, i) && !a.Timeout? && !a.Kill?
    ensures var r := Next(Unbounded, cfg, s, a);
            r.Some? ==> |r.value.readers| == |s.readers| && GoodStep(s, r.value, i)
  {
    hide LogInv, MemInv, HeadsInv, SenderOk, BackLink, Absorb, Complete, Settled, Partial, Carries, Posts, ReaderOk,
         Turn, ScanLength, OwnerDead, TokensInv, Overwrite, Piece;
    var r := Next(Unbounded, cfg, s, a);
    if r.Some? {
      if s.readers[i].pc != Idle {
        TokenMeansMessage(cfg, s, i);
      }
      if a == PublishHead(i) && s.readers[i].pc == Publish(true) {
        FinishDelivers(cfg, s, i);
      }
    }
  }

  lemma FirstInStep(cfg: Config, i: nat)
    requires i < MAX_READER_COUNT
    ensures InStep(Init(cfg), i)
  {
  }

  lemma {:induction false} RunInStep(cfg: Config, tr: seq<State>, acts: seq<Action>, n: nat, i: nat)
    requires Run(Unbounded, cfg, tr, acts) && cfg.Valid() && Healthy(acts) && n < |tr| && i in cfg.readers
    ensures Inv(cfg, tr[n]) && AllLive(tr[n].log) && InStep(tr[n], i)
  {
    hide Inv, Next, Init;
    RunKeeps(cfg, tr, acts, n);
    HealthyIsLive(cfg, tr, acts, n);
    if n == 0 {
      FirstInStep(cfg, i);
    } else {
      RunInStep(cfg, tr, acts, n - 1, i);
      assert StepAt(Unbounded, cfg, tr, acts, n - 1);
      StepInStep(cfg, tr[n - 1], acts[n - 1], i);
    }
  }

  /** Tokens plus completed waits are the posts made so far, in every run. */
  lemma TokensAreConserved(cfg: Config, tr: seq<State>, acts: seq<Action>, n: nat, i: nat)
    requires Run(Unbounded, cfg, tr, acts) && cfg.Valid() && n < |tr| && i in cfg.readers
    ensures tr[n].tokens[i] + tr[n].readers[i].waits == Posts(tr[n].log, i) <= |tr[n].log|
  {
    RunKeeps(cfg, tr, acts, n);
    PostsBound(tr[n].log, i);
  }

  /** The k-th recv to pass sem_wait never meets an empty ring, and returns with the first k reservations delivered. */
  lemma KthRecvReturnsKthMessage(cfg: Config, tr: seq<State>, acts: seq<Action>, n: nat, i: nat)
    requires Run(Unbounded, cfg, tr, acts) && cfg.Valid() && Healthy(acts) && n < |acts| && i in cfg.readers
    requires tr[n].readers[i].pc != Idle
    ensures tr[n].readers[i].pc == Loop ==> tr[n].readers[i].head != tr[n].tail
    ensures tr[n + 1].readers[i].pc == Idle ==>
              var k := tr[n].readers[i].waits;
              0 <= k <= |Reservations(tr, acts, n)| && tr[n + 1].readers[i].delivered == Reservations(tr, acts, n)[..k]
  {
    hide Inv, Next, InStep, AllLive;
    RunInStep(cfg, tr, acts, n, i);
    assert StepAt(Unbounded, cfg, tr, acts, n);
    TokenMeansMessage(cfg, tr[n], i);
    StepInStep(cfg, tr[n], acts[n], i);
    LogIsReservationOrder(cfg, tr, acts, n);
  }

  ghost predicate AllSendsReturned(senders: seq<Sender>) {
    forall c :: 0 <= c < |senders| ==> senders[c].pc.Returned? || senders[c].pc.Refused?
  }

  lemma AllPosted(cfg: Config, s: State)
    requires Inv(cfg, s) && AllLive(s.log) && AllSendsReturned(s.senders)
    ensures forall m :: 0 <= m < |s.log| ==> s.log[m].posted == MAX_READER_COUNT
  {
    forall m | 0 <= m < |s.log|
      ensures s.log[m].posted == MAX_READER_COUNT
    {
      var c := s.log[m].call;
      assert Holding(s.senders[c].pc) == Some(m);
      assert SenderOk(cfg, s.log, s.own, s.slots, s.heads, c, s.senders[c]);
    }
  }

  /** When every call has returned and a reader is blocked in sem_wait, nothing is left undelivered to it. */
  lemma BlockedMeansDrained(cfg: Config, tr: seq<State>, acts: seq<Action>, n: nat, i: nat)
    requires Run(Unbounded, cfg, tr, acts) && cfg.Valid() && Healthy(acts) && n <= |acts| && i in cfg.readers
    requires AllSendsReturned(tr[n].senders) && tr[n].readers[i].pc == Idle && tr[n].tokens[i] == 0
    ensures tr[n].readers[i].delivered == Reservations(tr, acts, n)
  {
    RunInStep(cfg, tr, acts, n, i);
    AllPosted(cfg, tr[n]);
    PostsBound(tr[n].log, i);
    assert tr[n].tokens[i] + tr[n].readers[i].waits == Posts(tr[n].log, i);
    LiveDelivery(cfg, tr[n], i);
    LogIsReservationOrder(cfg, tr, acts, n);
  }
}
