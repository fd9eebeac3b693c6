/** One recv call on a quiet ring, as a run of the transition system. */
module RecvRuns {
  import opened Bytes
  import opened Slicing
  import opened Options
  import opened Ring
  import opened RingInv
  import opened RingSteps
  import opened RingTheorems
  import opened RingWrap
  import opened SendRuns

  /** The reservation at position `at` starts there and is fully published: the next recv must return it. */
  ghost predicate Ready(cfg: Config, s: State, at: nat)
    requires cfg.slotSize >= 6
  {
    at < |s.own| && s.own[at].k == 0 && s.own[at].m < |s.log|
    && s.log[s.own[at].m].stamped == NeedOf(cfg, s.log[s.own[at].m])
  }

  ghost predicate StartsAt(s: State, at: nat) {
    at < |s.own| && s.own[at].k == 0 && s.own[at].m < |s.log| && s.log[s.own[at].m].start == at
  }

  /** `s` is `s0` but for reader `i`, its published head and the one token it took. */
  ghost predicate OnlyReader(cfg: Config, s0: State, s: State, i: nat)
    requires s0.Shaped(cfg) && s.Shaped(cfg) && i < MAX_READER_COUNT
  {
    && s.tail == s0.tail && s.slots == s0.slots && s.senders == s0.senders && s.log == s0.log && s.own == s0.own
    && s.heads == s0.heads[i := s.heads[i]] && s.readers == s0.readers[i := s.readers[i]]
    && s0.tokens[i] > 0 && s.tokens == s0.tokens[i := s0.tokens[i] - 1]
  }

  /** In the middle of a recv that began in `s0`: at its first slot, or inside the first message. */
  ghost predicate InRecv(cfg: Config, s0: State, s: State, i: nat)
    requires s0.Shaped(cfg) && s.Shaped(cfg) && i < MAX_READER_COUNT
  {
    var h0, r := s0.readers[i].head, s.readers[i];
    && OnlyReader(cfg, s0, s, i) && r.pc == Loop && r.delivered == s0.readers[i].delivered
    && (if r.asm.count == 0 then r.head == h0
        else h0 < r.head <= |s.own| && StartsAt(s, h0) && s.own[r.head - 1].m == s.own[h0].m)
  }

  /**
   * A recv that began in `s0` is over: it delivered the message at its first slot, and moved right behind it, exactly
   * if that was ready. Otherwise it left an abandoned slot behind, or found the ring empty.
   */
  ghost predicate Received(cfg: Config, s0: State, s: State, i: nat)
    requires s0.Shaped(cfg) && s.Shaped(cfg) && i < MAX_READER_COUNT && cfg.slotSize >= 6
  {
    var h0 := s0.readers[i].head;
    && OnlyReader(cfg, s0, s, i) && s.readers[i].pc == Idle && s.heads[i] == s.readers[i].head
    && s.readers[i].delivered == s0.readers[i].delivered +
                                 (if Ready(cfg, s0, h0) then [s0.log[s0.own[h0].m].msg] else [])
    && (h0 < |s0.own| ==> h0 < s.readers[i].head)
    && (Ready(cfg, s0, h0) ==> s.readers[i].head == h0 + NeedOf(cfg, s0.log[s0.own[h0].m]))
  }

  lemma StartRecv(cfg: Config, s: State, i: nat) returns (s': State)
    requires Inv(cfg, s) && i in cfg.readers && s.readers[i].pc == Idle && s.tokens[i] > 0
    ensures WaitStep(cfg, s, i) == Some(s') && Inv(cfg, s') && s'.Shaped(cfg) && InRecv(cfg, s, s', i)
    ensures s'.readers[i].head == s.readers[i].head && s'.readers[i].asm == NOTHING && s'.heads == s.heads
  {
    hide LogInv, MemInv, HeadsInv, SenderOk, BackLink, ReaderOk, TokensInv;
    WaitKeeps(cfg, s, i);
    s' := WaitStep(cfg, s, i).value;
  }

  /** The ring is empty for this reader. */
  lemma EmptyRecv(cfg: Config, s0: State, s: State, i: nat) returns (s': State)
    requires s0.Shaped(cfg) && Inv(cfg, s) && i in cfg.readers && InRecv(cfg, s0, s, i)
    requires s.readers[i].head == s.tail
    ensures Inv(cfg, s') && s'.Shaped(cfg) && Received(cfg, s0, s', i) && !Ready(cfg, s0, s0.readers[i].head)
    ensures s.readers[i].asm.count == 0 && s.readers[i].asm.idx == 0
    ensures s' == SetReader(s, i, Finish(s.readers[i]))
  {
    hide LogInv, MemInv, HeadsInv, SenderOk, BackLink, TokensInv;
    assert ReaderOk(cfg, s.log, s.own, s.heads[i], s.readers[i]);
    LookOk(cfg, s.log, s.own, s.heads[i], s.readers[i]);
    LookKeeps(cfg, s, i);
    s' := LookStep(cfg, s, i).value;
  }

  lemma LookRun(cfg: Config, s: State, i: nat) returns (s': State)
    requires Inv(cfg, s) && i in cfg.readers && s.readers[i].pc == Loop && s.readers[i].head != s.tail
    ensures Inv(cfg, s') && s' == SetReader(s, i, s.readers[i].(pc := Check(s.tail)))
    ensures s.readers[i].head < s.tail == |s.own|
  {
    hide LogInv, MemInv, HeadsInv, SenderOk, BackLink, TokensInv, AsmOk;
    assert ReaderOk(cfg, s.log, s.own, s.heads[i], s.readers[i]);
    LookKeeps(cfg, s, i);
    s' := LookStep(cfg, s, i).value;
  }

  /** A pass over an unstamped slot that does not time out changes nothing. */
  lemma StallPassStays(cfg: Config, s: State, i: nat)
    requires Inv(cfg, s) && i in cfg.readers && s.readers[i].pc == Loop && s.readers[i].head != s.tail
    requires s.slots[s.readers[i].head % cfg.slotCount].stamp != s.readers[i].head + 1
    ensures var r := LookStep(cfg, s, i);
            r.Some? && r.value.Shaped(cfg) && CheckStampStep(Unbounded, cfg, r.value, i) == Some(s)
  {
    hide LogInv, MemInv, HeadsInv, SenderOk, BackLink, ReaderOk, TokensInv;
    var s1 := LookRun(cfg, s, i);
    assert s.readers[i].(pc := Check(s.tail)).(pc := Loop) == s.readers[i];
    assert SetReader(s1, i, s.readers[i]).readers == s.readers;
  }

  /** What a reader holds after copying the slot at its head. */
  ghost function Taken(cfg: Config, s: State, i: nat): Assembly
    requires s.Shaped(cfg) && i < MAX_READER_COUNT
  {
    Absorb(cfg.slotSize, s.readers[i].asm, s.slots[s.readers[i].head % cfg.slotCount])
  }

  ghost function AfterCopy(cfg: Config, s: State, i: nat): State
    requires s.Shaped(cfg) && i < MAX_READER_COUNT
  {
    var r, asm := s.readers[i], Taken(cfg, s, i);
    var fin := asm.count > 0 && asm.done >= asm.count;
    var r' := r.(pc := Publish(fin), head := r.head + 1, pos := r.pos + 1, asm := asm);
    SetReader(s, i, if fin then Finish(r') else r'.(pc := Loop)).(heads := s.heads[i := r.head + 1])
  }

  /** The copied slot continues the message of the one before, and the last one completes it. */
  ghost predicate Took(cfg: Config, s: State, i: nat)
    requires s.Shaped(cfg) && i < MAX_READER_COUNT
  {
    var r, asm := s.readers[i], Taken(cfg, s, i);
    && r.head < |s.own| && s.own[r.head].m < |s.log|
    && var o := s.own[r.head];
       var e := s.log[o.m];
       && asm.count == NeedOf(cfg, e) && 1 <= asm.done == o.k + 1 <= asm.count && e.start + o.k == r.head
       && (asm.done == asm.count ==>
             Message(asm.id, asm.buf) == e.msg && asm.idx == |asm.buf| > 0 && e.stamped == NeedOf(cfg, e))
       && (if r.asm.count == 0 then o.k == 0 else r.head > 0 && s.own[r.head - 1].m == o.m)
  }

  lemma SlotShapes(cfg: Config, log: seq<Entry>, own: seq<Own>, slots: seq<Slot>)
    requires cfg.Valid() && MemInv(cfg, log, own, slots)
    ensures |slots| == cfg.slotCount && forall i :: 0 <= i < |slots| ==> |slots[i].data| == cfg.slotSize
  {
  }

  lemma OwnedEntry(cfg: Config, log: seq<Entry>, own: seq<Own>, at: nat)
    requires cfg.slotSize >= 6 && LogInv(cfg, log, own) && at < |own|
    ensures own[at].m < |log| && EntryOk(cfg, own, log[own[at].m]) && own[at].k < NeedOf(cfg, log[own[at].m])
    ensures log[own[at].m].start + own[at].k == at
  {
  }

  lemma PartialCounts(slotSize: nat, msg: Message, k: nat, a: Assembly)
    requires slotSize >= 6 && Partial(slotSize, msg, k, a)
    ensures a.count == Slicing.Need(slotSize, |msg.data|) && a.done == k
  {
  }

  lemma PieceTakenOf(cfg: Config, e: Entry, k: nat, a: Assembly, slot: Slot)
    requires cfg.slotSize >= 6 && cfg.Sendable(e.msg) && k < e.stamped <= NeedOf(cfg, e)
    requires |slot.data| == cfg.slotSize && Carries(cfg.slotSize, e.msg, k, slot)
    requires if a.count == 0 then a.done == 0 && k == 0 else a.done == k && Partial(cfg.slotSize, e.msg, k, a)
    requires a.count != 0 ==> k > 0
    ensures var asm := Absorb(cfg.slotSize, a, slot);
            && asm.count == NeedOf(cfg, e) && asm.done == k + 1
            && (asm.done == asm.count ==>
                  Message(asm.id, asm.buf) == e.msg && asm.idx == |asm.buf| > 0 && e.stamped == NeedOf(cfg, e))
  {
    hide Absorb, Carries, Partial, Offset;
    if a.count == 0 {
      AbsorbFirst(cfg.slotSize, e.msg, a, slot);
    } else {
      AbsorbNext(cfg.slotSize, e.msg, k, a, slot);
    }
    var asm := Absorb(cfg.slotSize, a, slot);
    PartialCounts(cfg.slotSize, e.msg, k + 1, asm);
    if asm.done == asm.count {
      AssembledIsMessage(cfg, e.msg, asm);
    }
  }

  lemma PieceTaken(cfg: Config, log: seq<Entry>, own: seq<Own>, slots: seq<Slot>, head: nat, r: Reader)
    requires cfg.Valid() && LogInv(cfg, log, own) && MemInv(cfg, log, own, slots)
    requires ReaderOk(cfg, log, own, head, r) && r.pc == Copy && head + cfg.slotCount >= |own|
    ensures r.head < |own| && own[r.head].m < |log|
    ensures var o := own[r.head];
            var e := log[o.m];
            var asm := Absorb(cfg.slotSize, r.asm, slots[r.head % cfg.slotCount]);
            && asm.count == NeedOf(cfg, e) && 1 <= asm.done == o.k + 1 <= asm.count && e.start + o.k == r.head
            && (asm.done == asm.count ==>
                  Message(asm.id, asm.buf) == e.msg && asm.idx == |asm.buf| > 0 && e.stamped == NeedOf(cfg, e))
            && (if r.asm.count == 0 then o.k == 0 else r.head > 0 && own[r.head - 1].m == o.m)
  {
    hide Absorb, Carries, Complete, Boundary, MemInv, Settled, Partial, LogInv, Turn;
    assert |slots| == cfg.slotCount && forall i :: 0 <= i < |slots| ==> |slots[i].data| == cfg.slotSize by {
      SlotShapes(cfg, log, own, slots);
    }
    CopyMeetsItsSlice(cfg, log, own, slots, head, r);
    OwnedEntry(cfg, log, own, r.head);
    var o := own[r.head];
    PieceTakenOf(cfg, log[o.m], o.k, r.asm, slots[r.head % cfg.slotCount]);
  }

  lemma HeadLag(cfg: Config, s: State, i: nat)
    requires Inv(cfg, s) && i in cfg.readers
    ensures s.heads[i] <= |s.own| < s.heads[i] + cfg.slotCount
  {
    hide LogInv, MemInv, SenderOk, BackLink, ReaderOk, TokensInv, Settled;
  }

  lemma TookPiece(cfg: Config, s: State, i: nat)
    requires Inv(cfg, s) && i in cfg.readers && s.readers[i].pc == Copy
    ensures Took(cfg, s, i)
  {
    hide HeadsInv, SenderOk, BackLink, TokensInv, LogInv, MemInv, ReaderOk, Absorb;
    var r := s.readers[i];
    assert ReaderOk(cfg, s.log, s.own, s.heads[i], r);
    HeadLag(cfg, s, i);
    PieceTaken(cfg, s.log, s.own, s.slots, s.heads[i], r);
  }

  lemma TookSame(cfg: Config, s: State, s': State, i: nat)
    requires s.Shaped(cfg) && s'.Shaped(cfg) && i < MAX_READER_COUNT && Took(cfg, s, i)
    requires s.own == s'.own && s.log == s'.log && s.slots == s'.slots
    requires s.readers[i].head == s'.readers[i].head && s.readers[i].asm == s'.readers[i].asm
    ensures Took(cfg, s', i)
  {
  }

  /** The slot at the head is stamped: look, check, copy, publish. */
  lemma CopySteps(cfg: Config, s: State, i: nat) returns (s': State)
    requires Inv(cfg, s) && i in cfg.readers && s.readers[i].pc == Loop && s.readers[i].head != s.tail
    requires s.slots[s.readers[i].head % cfg.slotCount].stamp == s.readers[i].head + 1
    ensures Inv(cfg, s') && s' == AfterCopy(cfg, s, i)
    ensures Took(cfg, s, i)
  {
    hide LogInv, MemInv, HeadsInv, SenderOk, BackLink, TokensInv, ReaderOk, Absorb, Took;
    var s1 := LookRun(cfg, s, i);
    CheckStampKeeps(cfg, s1, i);
    var s2 := CheckStampStep(Unbounded, cfg, s1, i).value;
    TookPiece(cfg, s2, i);
    CopySlotKeeps(cfg, s2, i);
    var s3 := CopySlotStep(Unbounded, cfg, s2, i).value;
    PublishHeadKeeps(cfg, s3, i);
    s' := PublishHeadStep(cfg, s3, i).value;
    assert s2.readers[i].asm == s.readers[i].asm && s2.readers[i].head == s.readers[i].head;
    TookSame(cfg, s2, s, i);
  }

  /** One more slot of the message: the recv goes on, or is over with the whole message. */
  lemma CopyRun(cfg: Config, s0: State, s: State, i: nat) returns (s': State)
    requires s0.Shaped(cfg) && Inv(cfg, s) && i in cfg.readers && InRecv(cfg, s0, s, i)
    requires s.readers[i].head != s.tail
    requires s.slots[s.readers[i].head % cfg.slotCount].stamp == s.readers[i].head + 1
    ensures Inv(cfg, s') && s'.Shaped(cfg) && s' == AfterCopy(cfg, s, i)
    ensures var asm := Taken(cfg, s, i);
            && asm.count > 0
            && (if asm.done < asm.count then InRecv(cfg, s0, s', i)
                else Received(cfg, s0, s', i) && Ready(cfg, s0, s0.readers[i].head) && asm.idx == |asm.buf| > 0
                     && Message(asm.id, asm.buf) == s0.log[s0.own[s0.readers[i].head].m].msg)
  {
    hide Inv, Absorb;
    s' := CopySteps(cfg, s, i);
  }

  // ----- the stall timer in a quiet ring -----

  lemma EndedLiveIsComplete(cfg: Config, s: State, m: nat)
    requires Inv(cfg, s) && m < |s.log| && !s.log[m].dead && AllEnded(s.senders)
    ensures s.log[m].stamped == NeedOf(cfg, s.log[m])
  {
    hide MemInv, HeadsInv, ReaderOk, TokensInv, LogInv;
    var c := s.log[m].call;
    assert Holding(s.senders[c].pc) == Some(m);
    assert SenderOk(cfg, s.log, s.own, s.slots, s.heads, c, s.senders[c]);
  }

  lemma QuietUnpublishedIsDead(cfg: Config, s: State, x: nat)
    requires Inv(cfg, s) && x < |s.own| && !Published(s.log, s.own, x) && AllEnded(s.senders)
    ensures OwnerDead(s.log, s.own, x)
  {
    hide MemInv, HeadsInv, ReaderOk, TokensInv, SenderOk, BackLink;
    if !s.log[s.own[x].m].dead {
      EndedLiveIsComplete(cfg, s, s.own[x].m);
    }
  }

  /** How far the stall scan runs from the reader's head. */
  ghost function Ahead(cfg: Config, s: State, i: nat): nat
    requires s.Shaped(cfg) && i < MAX_READER_COUNT
  {
    var head := s.readers[i].head;
    ScanLength(Unbounded, cfg, s.slots, head, Min(Sub(Unbounded, s.tail, head), MAX_SLICE_COUNT))
  }

  ghost function AfterTimeout(cfg: Config, s: State, i: nat): State
    requires s.Shaped(cfg) && i < MAX_READER_COUNT
  {
    var r := s.readers[i];
    var head := r.head + Ahead(cfg, s, i);
    var r' := r.(pc := Publish(true), head := head, pos := r.pos + Ahead(cfg, s, i), asm := NOTHING.(id := r.asm.id));
    SetReader(s, i, Finish(r')).(heads := s.heads[i := head])
  }

  lemma StalledIsDead(cfg: Config, s: State, i: nat)
    requires Inv(cfg, s) && i in cfg.readers && s.readers[i].pc == Check(s.tail) && s.readers[i].head < s.tail
    requires s.slots[s.readers[i].head % cfg.slotCount].stamp != s.readers[i].head + 1
    requires AllEnded(s.senders)
    ensures Ahead(cfg, s, i) > 0 && s.readers[i].pos == s.readers[i].head
    ensures forall x :: s.readers[i].head <= x < s.readers[i].head + Ahead(cfg, s, i) ==>
                          OwnerDead(s.log, s.own, x) && !Published(s.log, s.own, x)
  {
    hide LogInv, HeadsInv, SenderOk, BackLink, TokensInv, Published, OwnerDead, AsmOk, Complete, Settled;
    var r, n := s.readers[i], Ahead(cfg, s, i);
    assert ReaderOk(cfg, s.log, s.own, s.heads[i], r);
    HeadLag(cfg, s, i);
    forall x | r.head <= x < r.head + n
      ensures OwnerDead(s.log, s.own, x) && !Published(s.log, s.own, x)
    {
      ScanWalksUnpublished(cfg, s.log, s.own, s.slots, r.head, Min(s.tail - r.head, MAX_SLICE_COUNT), x);
      QuietUnpublishedIsDead(cfg, s, x);
    }
  }

  /** The timer fires: in a quiet ring only abandoned slots are skipped. */
  lemma TimeoutSteps(cfg: Config, s: State, i: nat) returns (s': State)
    requires Inv(cfg, s) && i in cfg.readers && s.readers[i].pc == Loop && s.readers[i].head != s.tail
    requires s.slots[s.readers[i].head % cfg.slotCount].stamp != s.readers[i].head + 1
    requires AllEnded(s.senders)
    ensures Inv(cfg, s') && s' == AfterTimeout(cfg, s, i) && Ahead(cfg, s, i) > 0
    ensures s.readers[i].head < |s.own| && !Published(s.log, s.own, s.readers[i].head)
  {
    hide LogInv, MemInv, HeadsInv, SenderOk, BackLink, TokensInv, ReaderOk, Published, OwnerDead;
    var s1 := LookRun(cfg, s, i);
    var r, n := s.readers[i], Ahead(cfg, s, i);
    StalledIsDead(cfg, s1, i);
    TimeoutKeeps(cfg, s1, i);
    var s2 := TimeoutStep(Unbounded, cfg, s1, i).value;
    PublishHeadKeeps(cfg, s2, i);
    s' := PublishHeadStep(cfg, s2, i).value;
  }

  lemma LiveIsPublished(cfg: Config, s: State, x: nat)
    requires Inv(cfg, s) && AllEnded(s.senders) && AllLive(s.log) && x < |s.own|
    ensures Published(s.log, s.own, x)
  {
    hide MemInv, HeadsInv, ReaderOk, TokensInv, SenderOk, BackLink;
    EndedLiveIsComplete(cfg, s, s.own[x].m);
  }

  /** On a quiet ring without abandoned slots that is so, however far the counters have run. */
  lemma LiveIsReadable(cfg: Config, s: State, i: nat)
    requires Inv(cfg, s) && AllEnded(s.senders) && AllLive(s.log) && i in cfg.readers
    ensures Readable(s, i)
  {
    hide LogInv, SenderOk, BackLink, TokensInv, Tells, AsmOk, Complete, Turn, HeadsInv, Settled;
    assert ReaderOk(cfg, s.log, s.own, s.heads[i], s.readers[i]);
    HeadLag(cfg, s, i);
    forall x | s.readers[i].head <= x < s.tail
      ensures Tells(s.slots, x)
    {
      LiveIsPublished(cfg, s, x);
      PublishedTells(cfg, s.log, s.own, s.slots, x);
    }
  }

  lemma AbandonedIsNotReady(cfg: Config, s0: State, s: State, i: nat)
    requires s0.Shaped(cfg) && Inv(cfg, s) && i in cfg.readers && InRecv(cfg, s0, s, i)
    requires s.readers[i].head < |s.own| && !Published(s.log, s.own, s.readers[i].head)
    ensures !Ready(cfg, s0, s0.readers[i].head)
  {
    hide MemInv, HeadsInv, SenderOk, BackLink, TokensInv, Complete, Settled;
    var r := s.readers[i];
    assert ReaderOk(cfg, s.log, s.own, s.heads[i], r);
    if r.asm.count != 0 {
      NextOwner(cfg, s.log, s.own, r.head - 1);
    }
  }

  lemma TimeoutRun(cfg: Config, s0: State, s: State, i: nat) returns (s': State)
    requires s0.Shaped(cfg) && Inv(cfg, s) && i in cfg.readers && InRecv(cfg, s0, s, i) && Quiet(cfg, s0)
    requires s.readers[i].head != s.tail
    requires s.slots[s.readers[i].head % cfg.slotCount].stamp != s.readers[i].head + 1
    ensures Inv(cfg, s') && s'.Shaped(cfg) && s' == AfterTimeout(cfg, s, i)
    ensures Received(cfg, s0, s', i) && !Ready(cfg, s0, s0.readers[i].head)
  {
    hide Inv, Ahead;
    s' := TimeoutSteps(cfg, s, i);
    AbandonedIsNotReady(cfg, s0, s, i);
  }

  /** A message just sent is what a reader that had read everything before it receives next. */
  lemma SentIsReady(cfg: Config, s: State, s': State, msg: Message)
    requires s.Shaped(cfg) && Inv(cfg, s') && Sent(cfg, s, s', msg) && Inv(cfg, s)
    ensures Ready(cfg, s', s.tail) && s'.log[s'.own[s.tail].m].msg == msg
    ensures AllLive(s.log) ==> AllLive(s'.log)
  {
    hide MemInv, HeadsInv, SenderOk, BackLink, ReaderOk, TokensInv;
    var m := |s.log|;
    NeedBounds(cfg.slotSize, |msg.data|);
    assert s'.log[m].start == s.tail;
    OwnerAt(cfg, s'.log, s'.own, m, 0);
  }
}
