/**
 * How old a stamp can get. A reader skips a slot only by giving up, and it can give up fewer times than the ring has
 * slots: in rings of up to 65536 slots no stamp ever gets old enough for the uint32 test to mistake it.
 */
module RingStamps {
  import opened Bytes
  import opened Slicing
  import opened Ring
  import opened RingInv
  import opened RingSteps
  import opened RingDebt
  import opened RingWrap

  /** No sequence number behind `head` is more than `t` laps ahead of the stamp in its slot. */
  ghost predicate StampsFollow(cfg: Config, slots: seq<Slot>, head: nat, t: nat)
    requires cfg.slotCount > 0 && |slots| == cfg.slotCount
  {
    forall x :: 0 <= x < head ==> x < slots[x % cfg.slotCount].stamp + cfg.slotCount * t
  }

  /** A stamp is only ever replaced by a later one. */
  lemma StampRises(cfg: Config, s: State, c: nat)
    requires Inv(cfg, s) && c < |s.senders| && s.senders[c].pc.Stamp?
    ensures var at := s.senders[c].pc.at; s.slots[at % cfg.slotCount].stamp <= at + 1
  {
    hide HeadsInv, ReaderOk, BackLink, TokensInv, LogInv;
    var at := s.senders[c].pc.at;
    var old' := s.slots[at % cfg.slotCount].stamp;
    WrittenSlotIsLive(cfg, s, c);
    if old' > at + 1 {
      assert Published(s.log, s.own, old' - 1);
      NoClash(cfg, s, c, old' - 1);
    }
  }

  /** Every step but a stamp leaves the stamps alone. */
  lemma StampsOnlyRise(cfg: Config, s: State, a: Action)
    requires Inv(cfg, s)
    ensures var r := Next(Unbounded, cfg, s, a);
            r.Some? ==> |r.value.slots| == |s.slots| && forall p :: 0 <= p < |s.slots| ==>
                          s.slots[p].stamp <= r.value.slots[p].stamp
  {
    hide LogInv, MemInv, HeadsInv, SenderOk, BackLink, ReaderOk, TokensInv, Absorb, Overwrite, Piece, ScanLength;
    if a.StampSlot? && a.c < |s.senders| && s.senders[a.c].pc.Stamp? {
      StampRises(cfg, s, a.c);
    }
  }

  /** A lap after a number that the stamps follow. */
  lemma OneLapMore(cfg: Config, slots: seq<Slot>, head: nat, t: nat, x: nat)
    requires cfg.slotCount > 0 && |slots| == cfg.slotCount && StampsFollow(cfg, slots, head, t)
    requires x < head + cfg.slotCount
    ensures x < slots[x % cfg.slotCount].stamp + cfg.slotCount * (t + 1)
  {
    var n := cfg.slotCount;
    assert n * (t + 1) == n * t + n;
    if x >= n {
      ModLapBefore(x, n);
    }
  }

  lemma CopyFollows(cfg: Config, s: State, i: nat, t: nat)
    requires Inv(cfg, s) && i in cfg.readers && s.readers[i].pc == Copy
    requires StampsFollow(cfg, s.slots, s.readers[i].head, t)
    ensures StampsFollow(cfg, s.slots, s.readers[i].head + 1, t)
  {
    hide LogInv, SenderOk, BackLink, TokensInv, AsmOk, Complete, Turn, Carries, Settled;
    var r := s.readers[i];
    assert ReaderOk(cfg, s.log, s.own, s.heads[i], r);
    assert Intact(cfg, s.log, s.own, s.slots, r.head);
    assert cfg.slotCount * t >= 0;
  }

  lemma HeadStays(cfg: Config, s: State, a: Action, i: nat)
    requires s.Shaped(cfg) && i in cfg.readers && a != Timeout(i) && a != CopySlot(i)
    ensures var r := Next(Unbounded, cfg, s, a);
            r.Some? ==> |r.value.readers| == |s.readers| && r.value.readers[i].head == s.readers[i].head
  {
  }

  /** Giving up moves a reader by less than a lap. */
  lemma TimeoutMoves(cfg: Config, s: State, i: nat)
    requires Inv(cfg, s) && i in cfg.readers
    ensures var r := TimeoutStep(Unbounded, cfg, s, i);
            r.Some? ==> |r.value.readers| == |s.readers| && r.value.slots == s.slots
                        && s.readers[i].head <= r.value.readers[i].head < s.readers[i].head + cfg.slotCount
  {
    hide LogInv, MemInv, SenderOk, BackLink, TokensInv, AsmOk, Complete, Turn, Settled, OwnerDead;
    assert ReaderOk(cfg, s.log, s.own, s.heads[i], s.readers[i]);
  }

  lemma FollowsFurther(cfg: Config, slots: seq<Slot>, head: nat, head': nat, t: nat)
    requires cfg.slotCount > 0 && |slots| == cfg.slotCount && StampsFollow(cfg, slots, head, t)
    requires head' < head + cfg.slotCount
    ensures StampsFollow(cfg, slots, head', t + 1)
  {
    forall x | 0 <= x < head'
      ensures x < slots[x % cfg.slotCount].stamp + cfg.slotCount * (t + 1)
    {
      OneLapMore(cfg, slots, head, t, x);
    }
  }

  /** What a step does to the things that StampsFollow speaks of. */
  lemma StepOnStamps(cfg: Config, s: State, a: Action, i: nat)
    requires Inv(cfg, s) && i in cfg.readers
    ensures var r := Next(Unbounded, cfg, s, a);
            r.Some? ==>
              && |r.value.slots| == |s.slots| && |r.value.readers| == |s.readers|
              && (a == Timeout(i) ==>
                    r.value.slots == s.slots && r.value.readers[i].head < s.readers[i].head + cfg.slotCount)
              && (a == CopySlot(i) ==>
                    r.value.slots == s.slots && s.readers[i].pc == Copy
                    && r.value.readers[i].head == s.readers[i].head + 1)
              && (a != Timeout(i) && a != CopySlot(i) ==> r.value.readers[i].head == s.readers[i].head)
  {
    hide LogInv, MemInv, HeadsInv, SenderOk, BackLink, ReaderOk, TokensInv, Absorb, Overwrite, Piece, Finish;
    hide TimeoutStep;
    StampsOnlyRise(cfg, s, a);
    if a == Timeout(i) {
      TimeoutMoves(cfg, s, i);
    } else if a != CopySlot(i) {
      HeadStays(cfg, s, a, i);
    }
  }

  lemma RisenFollows(cfg: Config, slots: seq<Slot>, slots': seq<Slot>, head: nat, t: nat)
    requires cfg.slotCount > 0 && |slots| == |slots'| == cfg.slotCount && StampsFollow(cfg, slots, head, t)
    requires forall p :: 0 <= p < |slots| ==> slots[p].stamp <= slots'[p].stamp
    ensures StampsFollow(cfg, slots', head, t)
  {
    forall x | 0 <= x < head
      ensures x < slots'[x % cfg.slotCount].stamp + cfg.slotCount * t
    {
      assert x < slots[x % cfg.slotCount].stamp + cfg.slotCount * t;
    }
  }

  lemma StepFollows(cfg: Config, s: State, a: Action, i: nat, t: nat)
    requires Inv(cfg, s) && i in cfg.readers && StampsFollow(cfg, s.slots, s.readers[i].head, t)
    ensures var r := Next(Unbounded, cfg, s, a);
            r.Some? ==> |r.value.slots| == |s.slots| && |r.value.readers| == |s.readers|
                        && StampsFollow(cfg, r.value.slots, r.value.readers[i].head,
                                        if a == Timeout(i) then t + 1 else t)
  {
    hide Next, LogInv, MemInv, HeadsInv, SenderOk, BackLink, ReaderOk, TokensInv, StampsFollow;
    var r := Next(Unbounded, cfg, s, a);
    if r.Some? {
      StepOnStamps(cfg, s, a, i);
      StampsOnlyRise(cfg, s, a);
      var s' := r.value;
      if a == Timeout(i) {
        FollowsFurther(cfg, s.slots, s.readers[i].head, s'.readers[i].head, t);
      } else if a == CopySlot(i) {
        CopyFollows(cfg, s, i, t);
      } else {
        RisenFollows(cfg, s.slots, s'.slots, s.readers[i].head, t);
      }
    }
  }

  lemma FollowsAtFirst(cfg: Config, i: nat)
    requires cfg.Valid() && i < MAX_READER_COUNT
    ensures StampsFollow(cfg, Init(cfg).slots, Init(cfg).readers[i].head, 0)
  {
  }

  lemma {:induction false} RunFollows(cfg: Config, tr: seq<State>, acts: seq<Action>, n: nat, i: nat)
    requires Run(Unbounded, cfg, tr, acts) && cfg.Valid() && n < |tr| && i in cfg.readers
    ensures Inv(cfg, tr[n]) && StampsFollow(cfg, tr[n].slots, tr[n].readers[i].head, Timeouts(acts, n, i))
  {
    hide Inv, Next, StampsFollow;
    RunKeeps(cfg, tr, acts, n);
    assert tr[n].Shaped(cfg);
    if n == 0 {
      FollowsAtFirst(cfg, i);
    } else {
      RunFollows(cfg, tr, acts, n - 1, i);
      assert tr[n - 1].Shaped(cfg);
      assert StepAt(Unbounded, cfg, tr, acts, n - 1);
      StepFollows(cfg, tr[n - 1], acts[n - 1], i, Timeouts(acts, n - 1, i));
    }
  }

  /**
   * Behind a reader's head, every sequence number is less than as many laps ahead of the stamp in its slot as that
   * reader gave up.
   */
  lemma StampsLagByTimeouts(cfg: Config, tr: seq<State>, acts: seq<Action>, n: nat, i: nat, x: nat)
    requires Run(Unbounded, cfg, tr, acts) && cfg.Valid() && n < |tr| && i in cfg.readers
    requires x < tr[n].readers[i].head + cfg.slotCount
    ensures x < tr[n].slots[x % cfg.slotCount].stamp + cfg.slotCount * (Timeouts(acts, n, i) + 1)
    ensures x < tr[n].readers[i].head ==>
              x < tr[n].slots[x % cfg.slotCount].stamp + cfg.slotCount * Timeouts(acts, n, i)
  {
    hide Inv, Next, Timeouts, Init;
    RunFollows(cfg, tr, acts, n, i);
    assert tr[n].Shaped(cfg);
    OneLapMore(cfg, tr[n].slots, tr[n].readers[i].head, Timeouts(acts, n, i), x);
  }

  // ----- small rings -----

  lemma NoReadersNoSlots(cfg: Config, s: State, a: Action)
    requires Inv(cfg, s) && cfg.readers == {} && s.own == []
    ensures var r := Next(Unbounded, cfg, s, a); r.Some? ==> r.value.own == []
  {
    hide LogInv, MemInv, HeadsInv, BackLink, ReaderOk, TokensInv, Overwrite, Piece;
    if a.TryCas? && a.c < |s.senders| {
      assert SenderOk(cfg, s.log, s.own, s.slots, s.heads, a.c, s.senders[a.c]);
    }
  }

  lemma {:induction false} RunWithoutReaders(cfg: Config, tr: seq<State>, acts: seq<Action>, n: nat)
    requires Run(Unbounded, cfg, tr, acts) && cfg.Valid() && n < |tr| && cfg.readers == {}
    ensures Inv(cfg, tr[n]) && tr[n].own == []
  {
    hide Inv, Next;
    RunKeeps(cfg, tr, acts, n);
    if n > 0 {
      RunWithoutReaders(cfg, tr, acts, n - 1);
      assert StepAt(Unbounded, cfg, tr, acts, n - 1);
      NoReadersNoSlots(cfg, tr[n - 1], acts[n - 1]);
    }
  }

  lemma Laps(n: nat, t: nat, most: nat)
    requires n <= most && t < n
    ensures n * t <= most * (n - 1) <= most * most - most && n * t + n <= most * n
  {
    MulMonotone(n, most, t);
    MulMonotone(t, n - 1, most);
    MulMonotone(n - 1, most - 1, most);
    assert n * t == t * n && most * (n - 1) == (n - 1) * most && most * n == n * most;
    MulMonotone(t + 1, n, most);
    MulMonotone(n, most, t + 1);
    assert n * t + n == n * (t + 1);
  }

  lemma HeadNear(cfg: Config, s: State, i: nat)
    requires Inv(cfg, s) && i in cfg.readers
    ensures s.readers[i].head <= s.tail == |s.own| <= s.readers[i].head + (cfg.slotCount - 1)
    ensures s.heads[i] <= s.readers[i].head && s.tail <= s.heads[i] + (cfg.slotCount - 1)
  {
    hide LogInv, MemInv, SenderOk, BackLink, TokensInv, AsmOk, Complete, Turn, Settled;
    assert ReaderOk(cfg, s.log, s.own, s.heads[i], s.readers[i]);
  }

  lemma TailOf(cfg: Config, s: State)
    requires Inv(cfg, s)
    ensures s.tail == |s.own|
  {
  }

  /** In a ring of less than 65536 slots every stamp stays less than one turn of the counter old, whoever dies. */
  lemma StampsStayFresh(cfg: Config, tr: seq<State>, acts: seq<Action>, n: nat)
    requires Run(Unbounded, cfg, tr, acts) && cfg.Valid() && n < |tr| && cfg.slotCount < 0x1_0000
    ensures StampsFresh(tr[n])
  {
    hide Inv, Next, Timeouts, Init, StampsFollow;
    RunKeeps(cfg, tr, acts, n);
    var s, q := tr[n], cfg.slotCount;
    assert s.Shaped(cfg);
    if i :| i in cfg.readers {
      HeadNear(cfg, s, i);
      TimeoutsAreBounded(cfg, tr, acts, n, i);
      var t := Timeouts(acts, n, i);
      Laps(q, t, 0xFFFF);
      forall p | 0 <= p < q
        ensures s.tail < s.slots[p].stamp + U32
      {
        if p < s.readers[i].head {
          var x := LastAt(s.readers[i].head, p, q);
          StampsLagByTimeouts(cfg, tr, acts, n, i, x);
        }
      }
    } else {
      RunWithoutReaders(cfg, tr, acts, n);
      TailOf(cfg, s);
    }
  }

  lemma YoungTells(slots: seq<Slot>, at: nat)
    requires |slots| > 0 && at + 1 < slots[at % |slots|].stamp + U32 && slots[at % |slots|].stamp < at + 1 + U32
    ensures Tells(slots, at)
  {
    var d := at + 1 - slots[at % |slots|].stamp;
    if d < 0 {
      assert d % U32 == d + U32;
    }
  }

  lemma StampBelowTail(cfg: Config, s: State, p: nat)
    requires Inv(cfg, s) && p < cfg.slotCount
    ensures |s.slots| == cfg.slotCount && s.slots[p].stamp <= |s.own|
  {
    hide LogInv, HeadsInv, SenderOk, BackLink, TokensInv, ReaderOk;
    assert s.slots[p].stamp != 0 ==> Published(s.log, s.own, s.slots[p].stamp - 1);
  }

  /**
   * In a ring of up to 65536 slots every stamp from a reader's head on is told apart in uint32, in every run, with
   * any deaths and timeouts: the looks at m_seq are right.
   */
  lemma StampsAlwaysTell(cfg: Config, tr: seq<State>, acts: seq<Action>, n: nat, i: nat)
    requires Run(Unbounded, cfg, tr, acts) && cfg.Valid() && n < |tr| && i in cfg.readers && cfg.slotCount <= 0x1_0000
    ensures Readable(tr[n], i)
  {
    hide LogInv, HeadsInv, SenderOk, BackLink, TokensInv, ReaderOk, Next, Timeouts, Init, Tells, Published;
    RunKeeps(cfg, tr, acts, n);
    var s, q := tr[n], cfg.slotCount;
    HeadNear(cfg, s, i);
    TimeoutsAreBounded(cfg, tr, acts, n, i);
    forall x | s.readers[i].head <= x < s.tail
      ensures Tells(s.slots, x)
    {
      if Published(s.log, s.own, x) {
        PublishedTells(cfg, s.log, s.own, s.slots, x);
      } else {
        Laps(q, Timeouts(acts, n, i) + 1, 0x1_0000);
        StampsLagByTimeouts(cfg, tr, acts, n, i, x);
        StampBelowTail(cfg, s, x % q);
        YoungTells(s.slots, x);
      }
    }
  }
}
