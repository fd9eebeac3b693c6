/**
 * What the stall timer costs a reader: a recv that times out uses up the token of a message behind the slots it
 * leaves, so every timeout leaves one message more undelivered, and a full ring without tokens never moves again.
 */
module RingDebt {
  import opened Bytes
  import opened Slicing
  import opened Options
  import opened Ring
  import opened RingInv
  import opened RingSteps
  import opened RingTheorems

  /** How often reader `i` gave up in the first `n` steps. */
  ghost function Timeouts(acts: seq<Action>, n: nat, i: nat): nat
    requires n <= |acts|
  {
    if n == 0 then 0 else Timeouts(acts, n - 1, i) + (if acts[n - 1] == Timeout(i) then 1 else 0)
  }

  /** The recv under way has a token that went neither into a delivery nor into a timeout. */
  ghost function Unspent(r: Reader): nat {
    if r.pc == Idle || (r.pc == Publish(true) && r.asm.count == 0) then 0 else 1
  }

  /** With `t` timeouts: each token taken went into a delivery, a timeout or the recv under way. */
  ghost predicate Balanced(s: State, i: nat, t: nat)
    requires i < |s.readers|
  {
    s.readers[i].waits == |s.readers[i].delivered| + t + Unspent(s.readers[i])
  }

  /** Complete messages that never posted reader `i`: their senders died between stamping and posting. */
  ghost function Unposted(cfg: Config, log: seq<Entry>, i: nat, n: nat): nat
    requires cfg.slotSize >= 6 && n <= |log|
  {
    if n == 0 then 0
    else
      var e := log[n - 1];
      Unposted(cfg, log, i, n - 1) + (if e.stamped == NeedOf(cfg, e) && e.posted <= i then 1 else 0)
  }

  /** Only complete messages post. */
  lemma {:induction false} PostsAndComplete(cfg: Config, log: seq<Entry>, own: seq<Own>, i: nat, n: nat)
    requires cfg.slotSize >= 6 && LogInv(cfg, log, own) && n <= |log|
    ensures |Complete(cfg, log, n)| == Posts(log[..n], i) + Unposted(cfg, log, i, n)
  {
    if n > 0 {
      PostsAndComplete(cfg, log, own, i, n - 1);
      assert log[..n][..n - 1] == log[..n - 1];
      assert EntryOk(cfg, own, log[n - 1]);
    }
  }

  lemma {:induction false} CompleteGap(cfg: Config, log: seq<Entry>, a: nat, b: nat)
    requires cfg.slotSize >= 6 && a <= b <= |log|
    ensures |Complete(cfg, log, b)| - |Complete(cfg, log, a)| <= b - a
    ensures (exists m :: a <= m < b && log[m].stamped != NeedOf(cfg, log[m])) ==>
              |Complete(cfg, log, b)| - |Complete(cfg, log, a)| < b - a
    decreases b
  {
    if a < b {
      CompleteGap(cfg, log, a, b - 1);
    }
  }

  /** Every reservation from position `at` on has a slot of its own there. */
  lemma {:induction false} EntriesFit(cfg: Config, log: seq<Entry>, own: seq<Own>, at: nat)
    requires cfg.slotSize >= 6 && LogInv(cfg, log, own) && at <= |own|
    ensures |log| - IndexAt(log, own, at) <= |own| - at
    decreases |own| - at
  {
    if at < |own| {
      NextOwner(cfg, log, own, at);
      EntriesFit(cfg, log, own, at + 1);
    }
  }

  lemma TurnFits(cfg: Config, log: seq<Entry>, own: seq<Own>, head: nat, r: Reader)
    requires cfg.slotSize >= 6 && LogInv(cfg, log, own) && ReaderOk(cfg, log, own, head, r)
    ensures Turn(log, own, r) <= |log|
    ensures |log| - Turn(log, own, r) <= |own| - r.head + Unspent(r)
    ensures r.pc == Idle || Unspent(r) == 0 ==> r.asm.count == 0
  {
    hide LogInv, Complete, Settled, Partial, Boundary;
    EntriesFit(cfg, log, own, if r.asm.count > 0 then r.head - 1 else r.head);
  }

  /** A slot that is not published lies in a message that is not complete, and that is still to come. */
  lemma UnpublishedIsIncomplete(cfg: Config, log: seq<Entry>, own: seq<Own>, head: nat, r: Reader, x: nat)
    requires cfg.slotSize >= 6 && LogInv(cfg, log, own) && ReaderOk(cfg, log, own, head, r)
    requires r.head <= x < |own| && !Published(log, own, x)
    ensures Turn(log, own, r) <= own[x].m < |log| && log[own[x].m].stamped != NeedOf(cfg, log[own[x].m])
  {
    hide Complete, Settled, Partial, Boundary;
    var at := if r.asm.count > 0 then r.head - 1 else r.head;
    if own[x].m < own[at].m {
      StartsOrdered(cfg, log, own, own[x].m, own[at].m);
    }
  }

  lemma DebtNow(cfg: Config, s: State, i: nat, t: nat)
    requires Inv(cfg, s) && i in cfg.readers && Balanced(s, i, t)
    ensures s.readers[i].head <= |s.own|
    ensures t + Unspent(s.readers[i]) + |s.readers[i].delivered| <= |Complete(cfg, s.log, |s.log|)|
    ensures t <= |s.own| - s.readers[i].head
    ensures forall x :: s.readers[i].head <= x < |s.own| && !Published(s.log, s.own, x) ==>
                          t < |s.own| - s.readers[i].head
  {
    hide MemInv, HeadsInv, SenderOk, BackLink, Complete, Posts, LogInv, AsmOk, Settled, Published;
    var r := s.readers[i];
    assert ReaderOk(cfg, s.log, s.own, s.heads[i], r);
    PostsAndComplete(cfg, s.log, s.own, i, |s.log|);
    assert s.log[..|s.log|] == s.log;
    TurnFits(cfg, s.log, s.own, s.heads[i], r);
    CompleteGap(cfg, s.log, Turn(s.log, s.own, r), |s.log|);
    forall x | r.head <= x < |s.own| && !Published(s.log, s.own, x)
      ensures t < |s.own| - r.head
    {
      UnpublishedIsIncomplete(cfg, s.log, s.own, s.heads[i], r, x);
    }
  }

  /** A recv that took a token always has something in front of it, whoever died and whatever timed out before. */
  lemma NeverEmpty(cfg: Config, s: State, i: nat, t: nat)
    requires Inv(cfg, s) && i in cfg.readers && Balanced(s, i, t) && s.readers[i].pc == Loop
    ensures s.readers[i].head != s.tail
  {
    hide MemInv, HeadsInv, SenderOk, BackLink, Complete, LogInv, AsmOk, Settled, TokensInv;
    DebtNow(cfg, s, i, t);
    var r := s.readers[i];
    assert ReaderOk(cfg, s.log, s.own, s.heads[i], r);
    LookOkTurn(cfg, s.log, s.own, s.heads[i], r);
  }

  lemma FinishBalances(cfg: Config, s: State, i: nat)
    requires Inv(cfg, s) && i in cfg.readers && s.readers[i].pc == Publish(true)
    ensures |Finish(s.readers[i]).delivered| == |s.readers[i].delivered| + Unspent(s.readers[i])
  {
    hide MemInv, HeadsInv, SenderOk, BackLink, Complete, Settled, Partial, TokensInv;
    var r := s.readers[i];
    assert ReaderOk(cfg, s.log, s.own, s.heads[i], r);
    if r.asm.count > 0 {
      DeliverOk(cfg, s.log, s.own, s.heads[i], r);
    }
  }

  ghost predicate ReadersOwn(a: Action, i: nat) {
    a == Wait(i) || a == Look(i) || a == CheckStamp(i) || a == Timeout(i) || a == CopySlot(i) || a == PublishHead(i)
  }

  /** What others do leaves a reader's own state alone. */
  lemma OthersLeaveReader(cfg: Config, s: State, a: Action, i: nat)
    requires s.Shaped(cfg) && i in cfg.readers && !ReadersOwn(a, i)
    ensures var r := Next(Unbounded, cfg, s, a);
            r.Some? ==> |r.value.readers| == |s.readers| && r.value.readers[i] == s.readers[i]
                        && |r.value.heads| == |s.heads| && r.value.heads[i] == s.heads[i]
  {
    hide Absorb, ScanLength, OwnerDead, Overwrite, Piece, Finish;
  }

  lemma StepBalances(cfg: Config, s: State, a: Action, i: nat, t: nat)
    requires Inv(cfg, s) && i in cfg.readers && Balanced(s, i, t)
    ensures var r := Next(Unbounded, cfg, s, a);
            r.Some? ==> |r.value.readers| == |s.readers| && Balanced(r.value, i, if a == Timeout(i) then t + 1 else t)
  {
    hide LogInv, MemInv, HeadsInv, SenderOk, BackLink, Absorb, ReaderOk, ScanLength, OwnerDead, TokensInv;
    if !ReadersOwn(a, i) {
      hide Next;
      OthersLeaveReader(cfg, s, a, i);
    } else {
      hide LoadTailStep, LoadHeadStep, DecideStep, TryCasStep, ScribbleStep, FillSlotStep, StampSlotStep, PostSemStep,
           KillStep;
      if s.readers[i].pc == Loop {
        NeverEmpty(cfg, s, i, t);
      } else if s.readers[i].pc == Publish(true) {
        FinishBalances(cfg, s, i);
      }
    }
  }

  lemma {:induction false} RunBalances(cfg: Config, tr: seq<State>, acts: seq<Action>, n: nat, i: nat)
    requires Run(Unbounded, cfg, tr, acts) && cfg.Valid() && n < |tr| && i in cfg.readers
    ensures Inv(cfg, tr[n]) && i < |tr[n].readers| && Balanced(tr[n], i, Timeouts(acts, n, i))
  {
    hide Inv, Next;
    RunKeeps(cfg, tr, acts, n);
    assert tr[n].Shaped(cfg);
    if n > 0 {
      RunBalances(cfg, tr, acts, n - 1, i);
      assert StepAt(Unbounded, cfg, tr, acts, n - 1);
      StepBalances(cfg, tr[n - 1], acts[n - 1], i, Timeouts(acts, n - 1, i));
    }
  }

  /** No recv ever meets an empty ring, in any run. */
  lemma RecvNeverMeetsEmptyRing(cfg: Config, tr: seq<State>, acts: seq<Action>, n: nat, i: nat)
    requires Run(Unbounded, cfg, tr, acts) && cfg.Valid() && n < |tr| && i in cfg.readers
    requires tr[n].readers[i].pc == Loop
    ensures tr[n].readers[i].head != tr[n].tail
  {
    hide Inv, Next;
    RunBalances(cfg, tr, acts, n, i);
    NeverEmpty(cfg, tr[n], i, Timeouts(acts, n, i));
  }

  /**
   * Between two recvs a reader has delivered one message for every token it took, less its timeouts, and these are
   * the first complete messages. With every timeout it falls one message further behind, for good.
   */
  lemma TimeoutsAreDebt(cfg: Config, tr: seq<State>, acts: seq<Action>, n: nat, i: nat)
    requires Run(Unbounded, cfg, tr, acts) && cfg.Valid() && n < |tr| && i in cfg.readers
    ensures var r, all := tr[n].readers[i], Complete(cfg, tr[n].log, |tr[n].log|);
            && (r.pc == Idle ==> |r.delivered| == r.waits - Timeouts(acts, n, i))
            && |r.delivered| + Timeouts(acts, n, i) <= |all| && r.delivered == all[..|r.delivered|]
  {
    hide Inv, Next, Complete;
    RunBalances(cfg, tr, acts, n, i);
    DebtNow(cfg, tr[n], i, Timeouts(acts, n, i));
    DeliversPublishedPrefix(cfg, tr, acts, n, i);
  }

  /** So a reader can give up fewer times than the ring has slots, in all its life. */
  lemma TimeoutsAreBounded(cfg: Config, tr: seq<State>, acts: seq<Action>, n: nat, i: nat)
    requires Run(Unbounded, cfg, tr, acts) && cfg.Valid() && n < |tr| && i in cfg.readers
    ensures Timeouts(acts, n, i) <= tr[n].tail - tr[n].readers[i].head <= cfg.slotCount - 1
    ensures (exists x :: tr[n].readers[i].head <= x < tr[n].tail && !Published(tr[n].log, tr[n].own, x)) ==>
              Timeouts(acts, n, i) < tr[n].tail - tr[n].readers[i].head
  {
    hide LogInv, MemInv, SenderOk, BackLink, TokensInv, Next, AsmOk, Complete, Settled, Published;
    RunBalances(cfg, tr, acts, n, i);
    var s := tr[n];
    DebtNow(cfg, s, i, Timeouts(acts, n, i));
    assert ReaderOk(cfg, s.log, s.own, s.heads[i], s.readers[i]);
  }

  // ----- blocked readers -----

  /** No send call holds a reservation it has not finished. */
  ghost predicate NothingUnderWay(senders: seq<Sender>) {
    forall c :: 0 <= c < |senders| ==> !senders[c].pc.Fill? && !senders[c].pc.Stamp? && !senders[c].pc.Post?
  }

  lemma AtRest(cfg: Config, s: State, m: nat)
    requires Inv(cfg, s) && NothingUnderWay(s.senders) && m < |s.log| && !s.log[m].dead
    ensures s.log[m].posted == MAX_READER_COUNT && s.log[m].stamped == NeedOf(cfg, s.log[m])
  {
    hide MemInv, HeadsInv, ReaderOk, TokensInv;
    var c := s.log[m].call;
    assert Holding(s.senders[c].pc) == Some(m);
    assert SenderOk(cfg, s.log, s.own, s.slots, s.heads, c, s.senders[c]);
  }

  lemma {:induction false} UnpostedIsDead(cfg: Config, s: State, i: nat, n: nat)
    requires Inv(cfg, s) && NothingUnderWay(s.senders) && n <= |s.log| && i < MAX_READER_COUNT
    ensures Unposted(cfg, s.log, i, n) > 0 ==> exists m :: 0 <= m < n && s.log[m].dead
  {
    hide Inv;
    if n > 0 {
      UnpostedIsDead(cfg, s, i, n - 1);
      if !s.log[n - 1].dead {
        AtRest(cfg, s, n - 1);
      }
    }
  }

  /**
   * Exactly what a blocked reader lacks when no send is under way: one complete message for each of its timeouts and
   * one for each sender that died after stamping and before posting it.
   */
  lemma BlockedLacks(cfg: Config, tr: seq<State>, acts: seq<Action>, n: nat, i: nat)
    requires Run(Unbounded, cfg, tr, acts) && cfg.Valid() && n < |tr| && i in cfg.readers
    requires NothingUnderWay(tr[n].senders) && tr[n].readers[i].pc == Idle && tr[n].tokens[i] == 0
    ensures var all, k := Complete(cfg, tr[n].log, |tr[n].log|), |tr[n].readers[i].delivered|;
            && k + Timeouts(acts, n, i) + Unposted(cfg, tr[n].log, i, |tr[n].log|) == |all|
            && tr[n].readers[i].delivered == all[..k]
    ensures AllLive(tr[n].log) ==> Unposted(cfg, tr[n].log, i, |tr[n].log|) == 0
  {
    hide LogInv, MemInv, HeadsInv, SenderOk, BackLink, ReaderOk, Next, Complete, Posts, Unposted;
    RunBalances(cfg, tr, acts, n, i);
    DeliversPublishedPrefix(cfg, tr, acts, n, i);
    var s := tr[n];
    PostsAndComplete(cfg, s.log, s.own, i, |s.log|);
    assert s.log[..|s.log|] == s.log;
    UnpostedIsDead(cfg, s, i, |s.log|);
  }

  // ----- the dead end -----

  /** Reader `i` waits for a token, its ring is full, and nobody is left who would post. */
  ghost predicate DeadEnd(cfg: Config, s: State, i: nat) {
    && Inv(cfg, s) && i in cfg.readers
    && s.readers[i].pc == Idle && s.tokens[i] == 0
    && s.tail == s.heads[i] + (cfg.slotCount - 1)
    && NothingUnderWay(s.senders)
  }

  ghost predicate Frozen(s: State, s': State, i: nat) {
    && s'.tail == s.tail && s'.log == s.log && s'.own == s.own
    && i < |s.readers| == |s'.readers| && s'.readers[i] == s.readers[i]
    && i < |s.heads| == |s'.heads| && s'.heads[i] == s.heads[i]
  }

  lemma CasNeedsRoom(cfg: Config, s: State, c: nat, i: nat)
    requires Inv(cfg, s) && c < |s.senders| && s.senders[c].pc == Cas(s.tail) && i in cfg.readers
    ensures s.tail < s.heads[i] + cfg.slotCount - 1
  {
    hide LogInv, MemInv, HeadsInv, ReaderOk, BackLink, TokensInv;
    assert SenderOk(cfg, s.log, s.own, s.slots, s.heads, c, s.senders[c]);
    NeedBounds(cfg.slotSize, |s.senders[c].msg.data|);
  }

  lemma ShapeOf(cfg: Config, s: State)
    requires Inv(cfg, s)
    ensures s.Shaped(cfg)
  {
  }

  /** Without room for an exchange, rest stays rest. */
  lemma RestStays(cfg: Config, s: State, a: Action, i: nat)
    requires s.Shaped(cfg) && NothingUnderWay(s.senders) && i < MAX_READER_COUNT && a != Wait(i)
    requires forall c :: 0 <= c < |s.senders| ==> s.senders[c].pc != Cas(s.tail)
    ensures var r := Next(Unbounded, cfg, s, a);
            r.Some? ==> && r.value.tail == s.tail && r.value.log == s.log && r.value.own == s.own
                        && |r.value.tokens| == |s.tokens| && r.value.tokens[i] == s.tokens[i]
                        && NothingUnderWay(r.value.senders)
  {
    hide Absorb, ScanLength, OwnerDead, Overwrite, Piece, Finish;
  }

  lemma DeadEndStays(cfg: Config, s: State, a: Action, i: nat)
    requires DeadEnd(cfg, s, i)
    ensures var r := Next(Unbounded, cfg, s, a); r.Some? ==> DeadEnd(cfg, r.value, i) && Frozen(s, r.value, i)
  {
    hide Inv;
    NextKeeps(cfg, s, a);
    forall c | 0 <= c < |s.senders|
      ensures s.senders[c].pc != Cas(s.tail)
    {
      if s.senders[c].pc == Cas(s.tail) {
        CasNeedsRoom(cfg, s, c, i);
      }
    }
    if !ReadersOwn(a, i) {
      hide Next;
      ShapeOf(cfg, s);
      OthersLeaveReader(cfg, s, a, i);
      RestStays(cfg, s, a, i);
    }
  }

  /** A run from any state. */
  ghost predicate Path(cfg: Config, tr: seq<State>, acts: seq<Action>) {
    && |tr| == |acts| + 1
    && (forall n :: 0 <= n < |tr| ==> tr[n].Shaped(cfg))
    && (forall n :: 0 <= n < |acts| ==> StepAt(Unbounded, cfg, tr, acts, n))
  }

  /**
   * Nobody gets out of it: whatever is called, dies or times out from then on, no send is admitted and reader `i`
   * delivers nothing more.
   */
  lemma {:induction false} DeadEndIsForever(cfg: Config, tr: seq<State>, acts: seq<Action>, n: nat, k: nat, i: nat)
    requires Path(cfg, tr, acts) && n <= k < |tr| && DeadEnd(cfg, tr[n], i)
    ensures DeadEnd(cfg, tr[k], i) && Frozen(tr[n], tr[k], i)
    decreases k
  {
    hide Inv, Next;
    assert tr[n].Shaped(cfg) && tr[k].Shaped(cfg);
    if n < k {
      DeadEndIsForever(cfg, tr, acts, n, k - 1, i);
      assert StepAt(Unbounded, cfg, tr, acts, k - 1);
      DeadEndStays(cfg, tr[k - 1], acts[k - 1], i);
    }
  }

  // ----- ... and is one exactly without a token -----

  lemma RestIsSettled(cfg: Config, s: State, x: nat)
    requires Inv(cfg, s) && NothingUnderWay(s.senders) && x < |s.own| && !Published(s.log, s.own, x)
    ensures OwnerDead(s.log, s.own, x)
  {
    hide MemInv, HeadsInv, ReaderOk, TokensInv, SenderOk, BackLink;
    if !s.log[s.own[x].m].dead {
      AtRest(cfg, s, s.own[x].m);
    }
  }

  /** At rest the timer may fire. */
  lemma RestTimesOut(cfg: Config, s: State, i: nat)
    requires Inv(cfg, s) && i in cfg.readers && s.readers[i].pc.Check? && NothingUnderWay(s.senders)
    requires s.slots[s.readers[i].head % cfg.slotCount].stamp != s.readers[i].head + 1
    ensures TimeoutStep(Unbounded, cfg, s, i).Some?
    ensures TimeoutStep(Unbounded, cfg, s, i).value.readers[i].head > s.readers[i].head
  {
    hide LogInv, MemInv, SenderOk, BackLink, TokensInv, AsmOk, Complete, Turn, Settled, OwnerDead, Published;
    var r := s.readers[i];
    assert ReaderOk(cfg, s.log, s.own, s.heads[i], r);
    var left := Min(Sub(Unbounded, r.pc.tail, r.head), MAX_SLICE_COUNT);
    forall x | r.pos <= x < r.pos + Stalled(Unbounded, cfg, s, i)
      ensures OwnerDead(s.log, s.own, x)
    {
      ScanWalksUnpublished(cfg, s.log, s.own, s.slots, r.head, left, x);
      RestIsSettled(cfg, s, x);
    }
  }

  /** What is left of a recv that has looked, if its slot is stamped. */
  lemma StampedMoves(cfg: Config, s: State, i: nat) returns (tr: seq<State>, acts: seq<Action>)
    requires Inv(cfg, s) && i in cfg.readers && s.readers[i].pc.Check?
    requires s.slots[s.readers[i].head % cfg.slotCount].stamp == s.readers[i].head + 1
    ensures Path(cfg, tr, acts) && tr[0] == s && s.Shaped(cfg) && tr[|acts|].heads[i] > s.heads[i]
  {
    hide LogInv, MemInv, HeadsInv, SenderOk, BackLink, TokensInv, AsmOk, Complete, Settled, Absorb, Turn, Finish;
    assert ReaderOk(cfg, s.log, s.own, s.heads[i], s.readers[i]);
    CheckStampKeeps(cfg, s, i);
    var s1 := CheckStampStep(Unbounded, cfg, s, i).value;
    CopySlotKeeps(cfg, s1, i);
    var s2 := CopySlotStep(Unbounded, cfg, s1, i).value;
    PublishHeadKeeps(cfg, s2, i);
    var s3 := PublishHeadStep(cfg, s2, i).value;
    tr, acts := [s, s1, s2, s3], [CheckStamp(i), CopySlot(i), PublishHead(i)];
  }

  /** ... and if it is not. */
  lemma UnstampedMoves(cfg: Config, s: State, i: nat) returns (tr: seq<State>, acts: seq<Action>)
    requires Inv(cfg, s) && i in cfg.readers && s.readers[i].pc.Check? && NothingUnderWay(s.senders)
    requires s.slots[s.readers[i].head % cfg.slotCount].stamp != s.readers[i].head + 1
    ensures Path(cfg, tr, acts) && tr[0] == s && s.Shaped(cfg) && tr[|acts|].heads[i] > s.heads[i]
  {
    hide LogInv, MemInv, HeadsInv, SenderOk, BackLink, TokensInv, AsmOk, Complete, Settled, Absorb, Turn, Finish;
    hide OwnerDead, ScanLength;
    assert ReaderOk(cfg, s.log, s.own, s.heads[i], s.readers[i]);
    RestTimesOut(cfg, s, i);
    TimeoutKeeps(cfg, s, i);
    var s1 := TimeoutStep(Unbounded, cfg, s, i).value;
    PublishHeadKeeps(cfg, s1, i);
    var s2 := PublishHeadStep(cfg, s1, i).value;
    tr, acts := [s, s1, s2], [Timeout(i), PublishHead(i)];
  }

  /** A recv that finds a token moves its head, whatever the slot there holds. */
  lemma TokenMoves(cfg: Config, s: State, i: nat) returns (tr: seq<State>, acts: seq<Action>)
    requires Inv(cfg, s) && i in cfg.readers && s.readers[i].pc == Idle && NothingUnderWay(s.senders)
    requires s.tokens[i] > 0 && s.heads[i] < s.tail
    ensures Path(cfg, tr, acts) && tr[0] == s && s.Shaped(cfg) && tr[|acts|].heads[i] > s.heads[i]
  {
    hide LogInv, MemInv, HeadsInv, SenderOk, BackLink, TokensInv, AsmOk, Complete, Settled, CheckStampStep;
    assert ReaderOk(cfg, s.log, s.own, s.heads[i], s.readers[i]);
    WaitKeeps(cfg, s, i);
    var s1 := WaitStep(cfg, s, i).value;
    LookKeeps(cfg, s1, i);
    var s2 := LookStep(cfg, s1, i).value;
    var rest: seq<State>, more: seq<Action>;
    if s2.slots[s2.readers[i].head % cfg.slotCount].stamp == s2.readers[i].head + 1 {
      rest, more := StampedMoves(cfg, s2, i);
    } else {
      rest, more := UnstampedMoves(cfg, s2, i);
    }
    tr, acts := [s, s1] + rest, [Wait(i), Look(i)] + more;
    forall n | 0 <= n < |acts|
      ensures StepAt(Unbounded, cfg, tr, acts, n)
    {
      if n >= 2 {
        assert StepAt(Unbounded, cfg, rest, more, n - 2);
      }
    }
  }

  /**
   * A full ring at rest whose reader is between two recvs is stuck for ever exactly if that reader's semaphore holds
   * no token.
   */
  lemma StuckExactlyWithoutToken(cfg: Config, s: State, i: nat)
    requires Inv(cfg, s) && i in cfg.readers && s.readers[i].pc == Idle && NothingUnderWay(s.senders)
    requires s.tail == s.heads[i] + (cfg.slotCount - 1) && cfg.slotCount > 1
    ensures s.tokens[i] == 0 <==>
            forall tr: seq<State>, acts: seq<Action> :: Path(cfg, tr, acts) && tr[0] == s ==>
              i < |tr[|acts|].heads| && tr[|acts|].heads[i] == s.heads[i]
  {
    hide Inv, Next;
    ShapeOf(cfg, s);
    if s.tokens[i] == 0 {
      forall tr: seq<State>, acts: seq<Action> | Path(cfg, tr, acts) && tr[0] == s
        ensures i < |tr[|acts|].heads| && tr[|acts|].heads[i] == s.heads[i]
      {
        DeadEndIsForever(cfg, tr, acts, 0, |acts|, i);
      }
    } else {
      var tr, acts := TokenMoves(cfg, s, i);
    }
  }
}
