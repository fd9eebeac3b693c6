/** The stall scan of recv_impl: how its result may move, and how often the timer can be started again. */
module Stall {
  import opened Bytes
  import opened Slicing
  import opened Ring
  import opened RingInv
  import opened RingSteps

  /** What one pass sees: the tail it loaded and the published sequence numbers. */
  datatype Snap = Snap(tail: nat, stamped: set<nat>)

  /** not_commit_end. */
  function End(head: nat, o: Snap): nat {
    Min(o.tail, head + MAX_SLICE_COUNT)
  }

  function First(at: nat, end: nat, stamped: set<nat>): (x: nat)
    ensures at <= x && (at <= end ==> x <= end)
    ensures x < end ==> x in stamped
    ensures forall y :: at <= y < x ==> y !in stamped
    decreases end - at
  {
    if at >= end || at in stamped then at else First(at + 1, end, stamped)
  }

  /** not_commit_head after the inner loop. */
  function Result(head: nat, o: Snap): nat {
    First(head, End(head, o), o.stamped)
  }

  ghost predicate Stuck(head: nat, o: Snap) {
    head < o.tail && head !in o.stamped
  }

  /** Time passes: the tail moves on and more slots are stamped. */
  ghost predicate Later(o: Snap, o': Snap) {
    o.tail <= o'.tail && o.stamped <= o'.stamped
  }

  ghost predicate Seen(head: nat, o: Snap) {
    Result(head, o) < End(head, o)
  }

  /** Before any stamp is seen the result can only grow, afterwards it can only shrink. */
  lemma ResultMoves(head: nat, o: Snap, o': Snap)
    requires Stuck(head, o) && Stuck(head, o') && Later(o, o')
    ensures head < Result(head, o) <= head + MAX_SLICE_COUNT
    ensures Seen(head, o) ==> Seen(head, o') && Result(head, o') <= Result(head, o)
    ensures !Seen(head, o) && !Seen(head, o') ==> Result(head, o) <= Result(head, o')
  {
    var r := Result(head, o);
    if Seen(head, o) {
      assert r in o'.stamped;
    }
  }

  ghost function Potential(head: nat, o: Snap): int {
    if Seen(head, o) then Result(head, o) - head else 2 * MAX_SLICE_COUNT - (Result(head, o) - head)
  }

  ghost function Restarts(head: nat, obs: seq<Snap>): nat {
    if |obs| <= 1 then 0
    else
      Restarts(head, obs[..|obs| - 1]) +
      (if Result(head, obs[|obs| - 1]) != Result(head, obs[|obs| - 2]) then 1 else 0)
  }

  ghost predicate Watching(head: nat, obs: seq<Snap>) {
    && (forall j :: 0 <= j < |obs| ==> Stuck(head, obs[j]))
    && (forall j :: 0 < j < |obs| ==> Later(obs[j - 1], obs[j]))
  }

  /** While the head stays put, the timer is started again at most 509 times. */
  lemma {:induction false} RestartsBounded(head: nat, obs: seq<Snap>)
    requires Watching(head, obs) && |obs| > 0
    ensures Restarts(head, obs) + Potential(head, obs[|obs| - 1]) <= Potential(head, obs[0])
    ensures Restarts(head, obs) <= 2 * MAX_SLICE_COUNT - 1
  {
    var k := |obs| - 1;
    ResultMoves(head, obs[0], obs[0]);
    ResultMoves(head, obs[k], obs[k]);
    if k > 0 {
      RestartsBounded(head, obs[..k]);
      assert obs[..k][k - 1] == obs[k - 1];
      ResultMoves(head, obs[k - 1], obs[k]);
    }
  }

  /** As long as nothing is seen at the end, nothing was seen before, and every result so far was a climb. */
  lemma {:induction false} RiseSoFar(head: nat, obs: seq<Snap>, k: nat)
    requires Watching(head, obs) && 0 < k < |obs| && !Seen(head, obs[k - 1])
    ensures forall j :: 0 <= j < k ==> !Seen(head, obs[j])
    ensures forall j :: 0 < j < k ==> Result(head, obs[j - 1]) <= Result(head, obs[j])
  {
    if k > 1 {
      ResultMoves(head, obs[k - 2], obs[k - 1]);
      RiseSoFar(head, obs, k - 1);
    }
  }

  /** The results climb to some point and fall from there on. */
  lemma {:induction false} ResultsRiseThenFall(head: nat, obs: seq<Snap>) returns (peak: nat)
    requires Watching(head, obs) && |obs| > 0
    ensures peak < |obs|
    ensures forall j :: 0 < j < peak ==> Result(head, obs[j - 1]) <= Result(head, obs[j])
    ensures forall j :: peak < j < |obs| ==> Result(head, obs[j]) <= Result(head, obs[j - 1])
    ensures forall j :: peak <= j < |obs| && peak + 1 < |obs| ==> Seen(head, obs[j])
  {
    var k := |obs| - 1;
    if k == 0 {
      peak := 0;
    } else {
      peak := ResultsRiseThenFall(head, obs[..k]);
      assert forall j :: 0 <= j < k ==> obs[..k][j] == obs[j];
      ResultMoves(head, obs[k - 1], obs[k]);
      if peak == k - 1 && !Seen(head, obs[peak]) {
        RiseSoFar(head, obs, k);
        peak := k;
      }
    }
  }

  // ----- the same in the ring -----

  ghost function SnapOf(s: State, i: nat): Snap
    requires i < |s.readers| && s.readers[i].pc.Check?
  {
    var r := s.readers[i];
    Snap(r.pc.tail, set x | r.head <= x < r.pc.tail && Published(s.log, s.own, x))
  }

  lemma {:induction false} ScanIsFirst(cfg: Config, log: seq<Entry>, own: seq<Own>, slots: seq<Slot>, head: nat,
                                       tail: nat, at: nat, end: nat)
    requires cfg.Valid() && MemInv(cfg, log, own, slots) && |own| <= head + cfg.slotCount
    requires head <= at <= end <= tail <= |own|
    ensures at + ScanLength(Unbounded, cfg, slots, at, end - at)
         == First(at, end, set x | head <= x < tail && Published(log, own, x))
    decreases end - at
  {
    hide Carries;
    if at < end {
      if Published(log, own, at) {
        assert Intact(cfg, log, own, slots, at);
      }
      assert slots[at % cfg.slotCount].stamp == at + 1 ==> Published(log, own, at);
      ScanIsFirst(cfg, log, own, slots, head, tail, at + 1, end);
    }
  }

  /** The scan of the ring is the scan of the snapshot. */
  lemma ScanIsResult(cfg: Config, s: State, i: nat)
    requires Inv(cfg, s) && i in cfg.readers && s.readers[i].pc.Check?
    ensures var r := s.readers[i];
            r.head + ScanLength(Unbounded, cfg, s.slots, r.head, Min(Sub(Unbounded, r.pc.tail, r.head),
                      MAX_SLICE_COUNT))
            == Result(r.head, SnapOf(s, i))
  {
    hide Carries;
    hide LogInv, SenderOk, BackLink, TokensInv, AsmOk, Complete, Turn;
    var r := s.readers[i];
    assert ReaderOk(cfg, s.log, s.own, s.heads[i], r);
    ScanIsFirst(cfg, s.log, s.own, s.slots, r.head, r.pc.tail, r.head, End(r.head, SnapOf(s, i)));
  }

  /** What the next scan of the same reader sees is later than what an earlier one saw. */
  ghost predicate NotEarlier(s: State, s': State, i: nat)
    requires i < |s.readers| && i < |s'.readers| && s.readers[i].pc.Check?
  {
    && |s'.own| >= s.readers[i].pc.tail
    && (s'.readers[i].pc.Check? ==> s'.readers[i].pc.tail >= s.readers[i].pc.tail)
    && (forall x :: 0 <= x ==> Published(s.log, s.own, x) ==> Published(s'.log, s'.own, x))
  }

  ghost predicate PublishesMore(s: State, s': State) {
    |s'.own| >= |s.own| && forall x :: 0 <= x ==> Published(s.log, s.own, x) ==> Published(s'.log, s'.own, x)
  }

  lemma StampPublishes(cfg: Config, s: State, c: nat)
    requires Inv(cfg, s) && c < |s.senders| && s.senders[c].pc.Stamp?
    ensures var r := StampSlotStep(Unbounded, cfg, s, c); r.Some? && PublishesMore(s, r.value)
  {
    hide MemInv, HeadsInv, BackLink, TokensInv, ReaderOk;
    assert SenderOk(cfg, s.log, s.own, s.slots, s.heads, c, s.senders[c]);
  }

  lemma StepPublishes(cfg: Config, s: State, a: Action)
    requires Inv(cfg, s)
    ensures var r := Next(Unbounded, cfg, s, a); r.Some? ==> PublishesMore(s, r.value)
  {
    hide LogInv, MemInv, HeadsInv, BackLink, TokensInv, ReaderOk, SenderOk, Absorb, Piece, Overwrite, Finish;
    var r := Next(Unbounded, cfg, s, a);
    if r.Some? && a.StampSlot? {
      StampPublishes(cfg, s, a.c);
    }
  }

  lemma CheckBound(cfg: Config, s: State, i: nat)
    requires Inv(cfg, s) && i in cfg.readers && s.readers[i].pc.Check?
    ensures s.readers[i].pc.tail <= |s.own|
  {
    assert ReaderOk(cfg, s.log, s.own, s.heads[i], s.readers[i]);
  }

  ghost predicate TailKeptOrLoaded(s: State, s': State, i: nat)
    requires i < |s.readers| && i < |s'.readers|
  {
    s'.readers[i].pc.Check? ==> s'.readers[i].pc == s.readers[i].pc || s'.readers[i].pc.tail == |s.own|
  }

  lemma LookedTail(cfg: Config, s: State, a: Action, i: nat)
    requires Inv(cfg, s) && i in cfg.readers
    ensures var r := Next(Unbounded, cfg, s, a);
            r.Some? ==> |r.value.readers| == |s.readers| && TailKeptOrLoaded(s, r.value, i)
  {
    hide LogInv, MemInv, HeadsInv, BackLink, TokensInv, ReaderOk, SenderOk, Absorb, Piece, Overwrite;
  }

  lemma {:induction false} RunOnlyGetsLater(cfg: Config, tr: seq<State>, acts: seq<Action>, n: nat, k: nat, i: nat)
    requires Run(Unbounded, cfg, tr, acts) && cfg.Valid() && n <= k < |tr| && i in cfg.readers
    requires tr[n].readers[i].pc.Check?
    ensures |tr[n].readers| == |tr[k].readers| && NotEarlier(tr[n], tr[k], i)
    decreases k
  {
    hide Inv, Published;
    RunKeeps(cfg, tr, acts, n);
    if n == k {
      CheckBound(cfg, tr[n], i);
    } else {
      RunOnlyGetsLater(cfg, tr, acts, n, k - 1, i);
      RunKeeps(cfg, tr, acts, k - 1);
      assert StepAt(Unbounded, cfg, tr, acts, k - 1);
      StepPublishes(cfg, tr[k - 1], acts[k - 1]);
      LookedTail(cfg, tr[k - 1], acts[k - 1], i);
    }
  }

  lemma StuckNow(cfg: Config, s: State, i: nat)
    requires Inv(cfg, s) && i in cfg.readers && s.readers[i].pc.Check?
    requires !Published(s.log, s.own, s.readers[i].head)
    ensures Stuck(s.readers[i].head, SnapOf(s, i))
  {
    assert ReaderOk(cfg, s.log, s.own, s.heads[i], s.readers[i]);
  }

  /** Successive scans of a reader whose head did not move are a watch: the bounds above apply to them. */
  lemma ScansOfAStuckReader(cfg: Config, tr: seq<State>, acts: seq<Action>, at: seq<nat>,
                            i: nat) returns (obs: seq<Snap>)
    requires Run(Unbounded, cfg, tr, acts) && cfg.Valid() && i in cfg.readers && |at| > 0
    requires forall j :: 0 < j < |at| ==> at[j - 1] <= at[j]
    requires forall j :: 0 <= j < |at| ==> at[j] < |tr|
    requires forall j :: 0 <= j < |at| ==>
      tr[at[j]].readers[i].pc.Check? && tr[at[j]].readers[i].head == tr[at[0]].readers[i].head
      && !Published(tr[at[j]].log, tr[at[j]].own, tr[at[j]].readers[i].head)
    ensures |obs| == |at| && forall j :: 0 <= j < |at| ==> obs[j] == SnapOf(tr[at[j]], i)
    ensures Watching(tr[at[0]].readers[i].head, obs)
    ensures Restarts(tr[at[0]].readers[i].head, obs) <= 509
  {
    hide Inv, Next, Init, Published;
    var head := tr[at[0]].readers[i].head;
    obs := seq(|at|, j requires 0 <= j < |at| => SnapOf(tr[at[j]], i));
    forall j | 0 <= j < |at|
      ensures Stuck(head, obs[j])
    {
      RunKeeps(cfg, tr, acts, at[j]);
      StuckNow(cfg, tr[at[j]], i);
    }
    forall j | 0 < j < |at|
      ensures Later(obs[j - 1], obs[j])
    {
      RunOnlyGetsLater(cfg, tr, acts, at[j - 1], at[j], i);
    }
    RestartsBounded(head, obs);
  }

  lemma UnstampedMeansUnpublished(cfg: Config, log: seq<Entry>, own: seq<Own>, slots: seq<Slot>, at: nat)
    requires cfg.Valid() && MemInv(cfg, log, own, slots) && !Published(log, own, at)
    ensures slots[at % cfg.slotCount].stamp != at + 1
  {
  }

  /** When the timer fires the reader leaves, whoever owns the slots: by 1 to 255 slots, to the scan's result. */
  lemma TimeoutLeaves(cfg: Config, s: State, i: nat)
    requires Inv(cfg, s) && i in cfg.readers && s.readers[i].pc.Check?
    requires !Published(s.log, s.own, s.readers[i].head)
    ensures var r := SkipStep(Unbounded, cfg, s, i);
            && r.Some? && r.value.readers[i].head == Result(s.readers[i].head, SnapOf(s, i))
            && s.readers[i].head < r.value.readers[i].head <= s.readers[i].head + 255
            && var at := r.value.readers[i].head;
               at == s.readers[i].pc.tail || at == s.readers[i].head + 255 || Published(s.log, s.own, at)
  {
    hide LogInv, HeadsInv, SenderOk, BackLink, TokensInv, AsmOk, Complete, Turn, Carries;
    ScanIsResult(cfg, s, i);
    StuckNow(cfg, s, i);
    ResultMoves(s.readers[i].head, SnapOf(s, i), SnapOf(s, i));
    assert ReaderOk(cfg, s.log, s.own, s.heads[i], s.readers[i]);
    UnstampedMeansUnpublished(cfg, s.log, s.own, s.slots, s.readers[i].head);
  }

  /** The sequence numbers that giving up leaves behind. */
  ghost predicate Skipped(s: State, s': State, i: nat, x: nat)
    requires i < |s.readers| && i < |s'.readers|
  {
    s.readers[i].head <= x < s'.readers[i].head
  }

  lemma HeadWindow(cfg: Config, s: State, i: nat)
    requires Inv(cfg, s) && i in cfg.readers
    ensures |s.own| <= s.heads[i] + cfg.slotCount
  {
    hide LogInv, MemInv, SenderOk, BackLink, ReaderOk, TokensInv, Settled;
  }

  lemma OwnersOrdered(cfg: Config, log: seq<Entry>, own: seq<Own>, a: nat, b: nat)
    requires cfg.slotSize >= 6 && LogInv(cfg, log, own) && a <= b < |own|
    ensures own[b].m < |log| && own[a].m <= own[b].m
  {
    if own[b].m < own[a].m {
      StartsOrdered(cfg, log, own, own[b].m, own[a].m);
    }
  }

  /** What is left behind was not published, and nothing of it was or is handed over: the reader skips its messages. */
  lemma SkippedIsLost(cfg: Config, s: State, i: nat)
    requires Inv(cfg, s) && i in cfg.readers && SkipStep(Unbounded, cfg, s, i).Some?
    ensures var s' := SkipStep(Unbounded, cfg, s, i).value;
            forall x: nat :: Skipped(s, s', i, x) ==>
                          && x < |s.own| && s.own[x].m < |s.log| && !Published(s.log, s.own, x)
                          && s'.readers[i].delivered == Complete(cfg, s.log, s.own[s.readers[i].head].m)
                          && s.own[s.readers[i].head].m <= s.own[x].m
  {
    hide LogInv, HeadsInv, SenderOk, BackLink, TokensInv, AsmOk, Complete, Turn, Carries, Published;
    var r := s.readers[i];
    assert ReaderOk(cfg, s.log, s.own, s.heads[i], r);
    TurnIsOwner(cfg, s.log, s.own, s.heads[i], r);
    HeadWindow(cfg, s, i);
    var s' := SkipStep(Unbounded, cfg, s, i).value;
    forall x: nat | Skipped(s, s', i, x)
      ensures x < |s.own| && s.own[x].m < |s.log| && !Published(s.log, s.own, x)
      ensures s.own[r.head].m <= s.own[x].m
    {
      var n := Min(Sub(Unbounded, r.pc.tail, r.head), MAX_SLICE_COUNT);
      ScanWalksUnpublished(cfg, s.log, s.own, s.slots, r.head, n, x);
      OwnersOrdered(cfg, s.log, s.own, r.head, x);
    }
  }

  lemma HistoryIsHead(cfg: Config, s: State, i: nat)
    requires Inv(cfg, s) && i in cfg.readers
    ensures s.Shaped(cfg) && s.readers[i].pos == s.readers[i].head
  {
    assert ReaderOk(cfg, s.log, s.own, s.heads[i], s.readers[i]);
  }

  lemma BehindIsSettled(cfg: Config, s: State, i: nat, x: nat)
    requires Inv(cfg, s) && i in cfg.readers && x < s.readers[i].head && !Published(s.log, s.own, x)
    ensures OwnerDead(s.log, s.own, x)
  {
    assert ReaderOk(cfg, s.log, s.own, s.heads[i], s.readers[i]);
    assert Settled(s.log, s.own, x);
  }

  /**
   * Giving up keeps the invariant exactly if every slot left behind belongs to a dead sender. A live one, however
   * slow, may still publish its message, which by then lies undelivered behind this reader's head.
   */
  lemma SkippingIsHarmlessExactlyForTheDead(cfg: Config, s: State, i: nat)
    requires Inv(cfg, s) && i in cfg.readers && SkipStep(Unbounded, cfg, s, i).Some?
    ensures var s' := SkipStep(Unbounded, cfg, s, i).value;
            Inv(cfg, s') <==> forall x: nat :: Skipped(s, s', i, x) ==> OwnerDead(s.log, s.own, x)
  {
    hide Inv, OwnerDead, Published, Stalled;
    HistoryIsHead(cfg, s, i);
    var s' := SkipStep(Unbounded, cfg, s, i).value;
    SkippedIsLost(cfg, s, i);
    if Inv(cfg, s') {
      forall x: nat | Skipped(s, s', i, x)
        ensures OwnerDead(s.log, s.own, x)
      {
        BehindIsSettled(cfg, s', i, x);
      }
    } else if forall x: nat :: Skipped(s, s', i, x) ==> OwnerDead(s.log, s.own, x) {
      TimeoutKeeps(cfg, s, i);
    }
  }
}
