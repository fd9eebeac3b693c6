/** Readers join and leave a quiet ring: the invariant goes over from the old reader set to the new one. */
module ReaderSlots {
  import opened Slicing
  import opened Options
  import opened Ring
  import opened RingInv
  import opened RingTheorems
  import opened SendRuns
  import opened RecvRuns

  /**
   * alloc_reader_slot gave out index `i`: its head starts at the tail, everything before counts as seen, and tokens
   * that an earlier holder of the index left behind are still there.
   */
  ghost function Joined(cfg: Config, s: State, i: nat): State
    requires s.Shaped(cfg) && i < MAX_READER_COUNT
  {
    var r := Reader(Idle, s.tail, s.tail, NOTHING, Complete(cfg, s.log, |s.log|), Posts(s.log, i) - s.tokens[i]);
    s.(heads := s.heads[i := s.tail], readers := s.readers[i := r])
  }

  /** free_reader_slot: the bit goes, one token wakes the thread that may be waiting. */
  ghost function Departed(s: State, i: nat): State
    requires i < |s.tokens|
  {
    s.(tokens := s.tokens[i := s.tokens[i] + 1])
  }

  lemma QuietSettled(cfg: Config, s: State, x: nat)
    requires Inv(cfg, s) && AllEnded(s.senders) && x < |s.own|
    ensures Settled(s.log, s.own, x)
  {
    hide Inv, Published, OwnerDead;
    if !Published(s.log, s.own, x) {
      QuietUnpublishedIsDead(cfg, s, x);
    }
  }

  lemma EndedIgnoresReaders(cfg: Config, cfg': Config, s: State, heads': seq<nat>, c: nat)
    requires Inv(cfg, s) && AllEnded(s.senders) && c < |s.senders|
    requires cfg' == cfg.(readers := cfg'.readers) && cfg'.Valid() && |heads'| == MAX_READER_COUNT
    ensures SenderOk(cfg', s.log, s.own, s.slots, heads', c, s.senders[c]) && s.SenderShaped(cfg', s.senders[c])
  {
    hide LogInv, MemInv, HeadsInv, BackLink, ReaderOk, TokensInv;
    assert SenderOk(cfg, s.log, s.own, s.slots, s.heads, c, s.senders[c]);
  }

  lemma SameLog(cfg: Config, cfg': Config, log: seq<Entry>, own: seq<Own>)
    requires cfg' == cfg.(readers := cfg'.readers) && cfg.slotSize >= 6 && LogInv(cfg, log, own)
    ensures LogInv(cfg', log, own)
  {
    hide Need;
    assert forall m :: 0 <= m < |log| ==> EntryOk(cfg, own, log[m]);
  }

  lemma SameSlots(cfg: Config, cfg': Config, log: seq<Entry>, own: seq<Own>, slots: seq<Slot>)
    requires cfg' == cfg.(readers := cfg'.readers) && cfg.Valid() && cfg'.Valid() && MemInv(cfg, log, own, slots)
    ensures MemInv(cfg', log, own, slots)
  {
    hide Carries;
    forall at: nat | at + cfg.slotCount >= |own| && Published(log, own, at)
      ensures at < |own| && own[at].m < |log| && Intact(cfg', log, own, slots, at)
    {
      assert Intact(cfg, log, own, slots, at);
    }
  }

  lemma SameMemory(cfg: Config, cfg': Config, s: State)
    requires Inv(cfg, s) && cfg' == cfg.(readers := cfg'.readers) && cfg'.Valid()
    ensures LogInv(cfg', s.log, s.own) && MemInv(cfg', s.log, s.own, s.slots)
  {
    hide LogInv, MemInv, HeadsInv, SenderOk, BackLink, ReaderOk, TokensInv;
    SameLog(cfg, cfg', s.log, s.own);
    SameSlots(cfg, cfg', s.log, s.own, s.slots);
  }

  lemma TailIsOwned(cfg: Config, s: State)
    requires Inv(cfg, s)
    ensures s.Shaped(cfg) && s.tail == |s.own|
  {
  }

  lemma JoinerOk(cfg: Config, s: State, i: nat)
    requires Inv(cfg, s) && AllEnded(s.senders) && i < MAX_READER_COUNT
    ensures ReaderOk(cfg, s.log, s.own, s.tail, Joined(cfg, s, i).readers[i])
  {
    hide Inv, Settled, Published, OwnerDead, Posts;
    TailIsOwned(cfg, s);
    forall at: nat | at < s.tail
      ensures Settled(s.log, s.own, at)
    {
      QuietSettled(cfg, s, at);
    }
    var r := Joined(cfg, s, i).readers[i];
    assert Turn(s.log, s.own, r) == |s.log|;
    assert AsmOk(cfg, s.log, s.own, r);
    assert s.tail == r.head == r.pos;
  }

  lemma {:induction false} SameComplete(cfg: Config, cfg': Config, log: seq<Entry>, n: nat)
    requires cfg.slotSize == cfg'.slotSize >= 6 && n <= |log|
    ensures Complete(cfg, log, n) == Complete(cfg', log, n)
  {
    if n > 0 {
      SameComplete(cfg, cfg', log, n - 1);
    }
  }

  lemma SameReader(cfg: Config, cfg': Config, log: seq<Entry>, own: seq<Own>, head: nat, r: Reader)
    requires cfg.slotSize == cfg'.slotSize >= 6 && ReaderOk(cfg, log, own, head, r)
    ensures ReaderOk(cfg', log, own, head, r)
  {
    SameComplete(cfg, cfg', log, Turn(log, own, r));
  }

  lemma JoinHeads(cfg: Config, s: State, i: nat)
    requires Inv(cfg, s) && AllEnded(s.senders) && i < MAX_READER_COUNT
    ensures HeadsInv(cfg.(readers := cfg.readers + {i}), s.log, s.own, s.heads[i := s.tail])
  {
    hide LogInv, MemInv, SenderOk, BackLink, ReaderOk, TokensInv, Settled;
    forall at: nat | at < s.tail
      ensures Settled(s.log, s.own, at)
    {
      QuietSettled(cfg, s, at);
    }
  }

  lemma JoinShape(cfg: Config, s: State, i: nat)
    requires s.Shaped(cfg) && i < MAX_READER_COUNT
    ensures Joined(cfg, s, i).Shaped(cfg.(readers := cfg.readers + {i}))
  {
    hide Posts;
    var s' := Joined(cfg, s, i);
    forall c | 0 <= c < |s.senders|
      ensures s'.SenderShaped(cfg.(readers := cfg.readers + {i}), s'.senders[c])
    {
      assert s.SenderShaped(cfg, s.senders[c]);
    }
  }

  /** A reader that joins a quiet ring keeps the invariant, whatever tokens it finds; nobody else notices. */
  lemma JoinKeeps(cfg: Config, s: State, i: nat)
    requires Inv(cfg, s) && Quiet(cfg, s) && i < MAX_READER_COUNT
    ensures var cfg' := cfg.(readers := cfg.readers + {i});
            Inv(cfg', Joined(cfg, s, i)) && Quiet(cfg', Joined(cfg, s, i))
  {
    hide LogInv, MemInv, SenderOk, BackLink, ReaderOk, Settled, Posts;
    var cfg', s' := cfg.(readers := cfg.readers + {i}), Joined(cfg, s, i);
    SameMemory(cfg, cfg', s);
    JoinerOk(cfg, s, i);
    forall c | 0 <= c < |s.senders|
      ensures SenderOk(cfg', s'.log, s'.own, s'.slots, s'.heads, c, s'.senders[c])
              && s'.SenderShaped(cfg', s'.senders[c])
    {
      EndedIgnoresReaders(cfg, cfg', s, s'.heads, c);
    }
    forall r | r in cfg'.readers
      ensures ReaderOk(cfg', s'.log, s'.own, s'.heads[r], s'.readers[r])
    {
      SameReader(cfg, cfg', s.log, s.own, s'.heads[r], s'.readers[r]);
    }
    JoinHeads(cfg, s, i);
    JoinShape(cfg, s, i);
  }

  lemma EndedLiveHasPosted(cfg: Config, s: State, m: nat)
    requires Inv(cfg, s) && m < |s.log| && !s.log[m].dead && AllEnded(s.senders)
    ensures s.log[m].posted == MAX_READER_COUNT
  {
    hide MemInv, HeadsInv, ReaderOk, TokensInv, LogInv;
    var c := s.log[m].call;
    assert Holding(s.senders[c].pc) == Some(m);
    assert SenderOk(cfg, s.log, s.own, s.slots, s.heads, c, s.senders[c]);
  }

  /** The joiner's waits count its messages exactly if it finds no tokens. */
  lemma JoinerInStep(cfg: Config, s: State, i: nat)
    requires Inv(cfg, s) && Quiet(cfg, s) && AllLive(s.log) && i < MAX_READER_COUNT
    ensures InStep(Joined(cfg, s, i), i) <==> s.tokens[i] == 0
  {
    hide MemInv, HeadsInv, SenderOk, BackLink, ReaderOk, TokensInv;
    forall m | 0 <= m < |s.log|
      ensures s.log[m].stamped == NeedOf(cfg, s.log[m]) && s.log[m].posted > i
    {
      EndedLiveIsComplete(cfg, s, m);
      EndedLiveHasPosted(cfg, s, m);
    }
    PostsBound(s.log, i);
    AllComplete(cfg, s.log, |s.log|);
  }

  /** Otherwise its first recv passes sem_wait, finds the ring empty and returns nothing. */
  lemma LeftTokensMeetAnEmptyRing(cfg: Config, s: State, i: nat)
    requires Inv(cfg, s) && Quiet(cfg, s) && i < MAX_READER_COUNT && s.tokens[i] > 0
    ensures var cfg', s' := cfg.(readers := cfg.readers + {i}), Joined(cfg, s, i);
            && s'.Shaped(cfg') && WaitStep(cfg', s', i).Some?
            && var s1 := WaitStep(cfg', s', i).value;
               && s1.Shaped(cfg') && s1.readers[i].head == s1.tail
               && LookStep(cfg', s1, i).Some?
               && LookStep(cfg', s1, i).value.readers[i].delivered == s'.readers[i].delivered
               && LookStep(cfg', s1, i).value.readers[i].pc == Idle
  {
    hide LogInv, MemInv, HeadsInv, SenderOk, BackLink, ReaderOk, TokensInv, Complete, Posts;
    JoinShape(cfg, s, i);
    var cfg', s' := cfg.(readers := cfg.readers + {i}), Joined(cfg, s, i);
    var s1 := WaitStep(cfg', s', i).value;
    forall c | 0 <= c < |s1.senders|
      ensures s1.SenderShaped(cfg', s1.senders[c])
    {
      assert s'.SenderShaped(cfg', s'.senders[c]);
    }
  }

  /** A reader that leaves takes its own head and tokens with it and touches nothing else. */
  lemma LeaveKeeps(cfg: Config, s: State, i: nat)
    requires Inv(cfg, s) && Quiet(cfg, s) && i < MAX_READER_COUNT
    ensures var cfg' := cfg.(readers := cfg.readers - {i});
            Inv(cfg', Departed(s, i)) && Quiet(cfg', Departed(s, i))
  {
    hide LogInv, MemInv, SenderOk, BackLink, ReaderOk, Settled, Posts;
    var cfg', s' := cfg.(readers := cfg.readers - {i}), Departed(s, i);
    SameMemory(cfg, cfg', s);
    forall c | 0 <= c < |s.senders|
      ensures SenderOk(cfg', s'.log, s'.own, s'.slots, s'.heads, c, s'.senders[c])
              && s'.SenderShaped(cfg', s'.senders[c])
    {
      EndedIgnoresReaders(cfg, cfg', s, s'.heads, c);
    }
    forall r | r in cfg'.readers
      ensures ReaderOk(cfg', s'.log, s'.own, s'.heads[r], s'.readers[r])
    {
      SameReader(cfg, cfg', s.log, s.own, s'.heads[r], s'.readers[r]);
    }
  }
}
