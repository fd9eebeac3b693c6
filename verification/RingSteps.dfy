/** Every step of the ring with unbounded counters keeps its invariant. */
module RingSteps {
  import opened Bytes
  import opened Slicing
  import opened Options
  import opened Ring
  import opened RingInv

  /** A sender step that touches only its own program counter. */
  lemma LocalKeeps(cfg: Config, s: State, c: nat, pc: SenderPc)
    requires Inv(cfg, s) && c < |s.senders|
    requires Holding(pc) == Holding(s.senders[c].pc)
    requires SenderOk(cfg, s.log, s.own, s.slots, s.heads, c, s.senders[c].(pc := pc))
    requires SetPc(s, c, pc).SenderShaped(cfg, s.senders[c].(pc := pc))
    ensures Inv(cfg, SetPc(s, c, pc))
  {
    hide LogInv, MemInv, HeadsInv, ReaderOk, Posts;
    var s' := SetPc(s, c, pc);
    assert s'.Shaped(cfg);
    assert BackLink(s'.log, s'.senders);
  }

  lemma CallKeeps(cfg: Config, s: State, msg: Message)
    requires Inv(cfg, s) && cfg.Sendable(msg)
    ensures Inv(cfg, s.(senders := s.senders + [Sender(msg, Start)]))
  {
    var s' := s.(senders := s.senders + [Sender(msg, Start)]);
    assert s'.Shaped(cfg);
    assert BackLink(s'.log, s'.senders);
  }

  lemma LoadTailKeeps(cfg: Config, s: State, c: nat)
    requires Inv(cfg, s) && c < |s.senders|
    ensures var r := LoadTailStep(cfg, s, c); r.Some? ==> Inv(cfg, r.value)
  {
    var r := LoadTailStep(cfg, s, c);
    if r.Some? {
      LocalKeeps(cfg, s, c, r.value.senders[c].pc);
    }
  }

  /** slowest_head's running maximum bounds the backlog of every reader seen so far, if the tail did not move. */
  lemma ScanOk(cfg: Config, s: State, c: nat, t: nat, i: nat, slow: nat, maxUsed: nat)
    requires Inv(cfg, s) && c < |s.senders| && s.senders[c].pc == Scan(t, i, slow, maxUsed) && i < MAX_READER_COUNT
    ensures var used := Sub(Unbounded, t, s.heads[i]);
            var pc := if i in cfg.readers && used > maxUsed then Scan(t, i + 1, s.heads[i], used)
                      else Scan(t, i + 1, slow, maxUsed);
            SenderOk(cfg, s.log, s.own, s.slots, s.heads, c, s.senders[c].(pc := pc))
  {
    assert SenderOk(cfg, s.log, s.own, s.slots, s.heads, c, s.senders[c]);
    var used := Sub(Unbounded, t, s.heads[i]);
    var mu := if i in cfg.readers && used > maxUsed then used else maxUsed;
    if t == |s.own| {
      forall j | j in cfg.readers && j < i + 1
        ensures t <= s.heads[j] + mu
      {
        if j == i {
          assert s.heads[i] <= |s.own| && used == t - s.heads[i];
        }
      }
    }
  }

  lemma LoadHeadKeeps(cfg: Config, s: State, c: nat)
    requires Inv(cfg, s) && c < |s.senders|
    ensures var r := LoadHeadStep(Unbounded, cfg, s, c); r.Some? ==> Inv(cfg, r.value)
  {
    var r := LoadHeadStep(Unbounded, cfg, s, c);
    if r.Some? {
      var pc := s.senders[c].pc;
      ScanOk(cfg, s, c, pc.oldTail, pc.i, pc.slow, pc.maxUsed);
      LocalKeeps(cfg, s, c, r.value.senders[c].pc);
    }
  }

  lemma DecideKeeps(cfg: Config, s: State, c: nat)
    requires Inv(cfg, s) && c < |s.senders|
    ensures var r := DecideStep(Unbounded, cfg, s, c); r.Some? ==> Inv(cfg, r.value)
  {
    var r := DecideStep(Unbounded, cfg, s, c);
    if r.Some? {
      assert SenderOk(cfg, s.log, s.own, s.slots, s.heads, c, s.senders[c]);
      LocalKeeps(cfg, s, c, r.value.senders[c].pc);
    }
  }

  // ----- the exchange on the tail -----

  lemma CasLog(cfg: Config, s: State, c: nat)
    requires Inv(cfg, s) && c < |s.senders| && s.senders[c].pc == Cas(s.tail)
    ensures var r := TryCasStep(Unbounded, cfg, s, c, false);
            r.Some? && LogInv(cfg, r.value.log, r.value.own) && r.value.tail == |r.value.own|
  {
    hide MemInv, HeadsInv, ReaderOk, TokensInv, BackLink;
    var s' := TryCasStep(Unbounded, cfg, s, c, false).value;
    assert SenderOk(cfg, s.log, s.own, s.slots, s.heads, c, s.senders[c]);
    var msg := s.senders[c].msg;
    var need := cfg.Need(msg);
    NeedBounds(cfg.slotSize, |msg.data|);
    assert |s'.own| == |s.own| + need;
    forall m | 0 <= m < |s'.log|
      ensures EntryOk(cfg, s'.own, s'.log[m])
    {
      if m < |s.log| {
        assert EntryOk(cfg, s.own, s.log[m]);
      }
    }
    forall at | 0 <= at < |s'.own|
      ensures s'.own[at].m < |s'.log| && s'.own[at].k < NeedOf(cfg, s'.log[s'.own[at].m])
      ensures s'.log[s'.own[at].m].start + s'.own[at].k == at
    {
      if at < |s.own| {
        assert s'.own[at] == s.own[at];
      } else {
        assert s'.own[at] == Own(|s.log|, at - |s.own|);
      }
    }
  }

  // ----- what the readers rely on -----

  ghost predicate EntryGrew(cfg: Config, e: Entry, e': Entry)
    requires cfg.slotSize >= 6
  {
    && e'.msg == e.msg && e'.start == e.start
    && e.stamped <= e'.stamped && (e.dead ==> e'.dead)
    && (e.dead || e.stamped == NeedOf(cfg, e) ==> e'.stamped == e.stamped)
  }

  /** The log grew: new reservations at the end, more stamps for live unfinished ones, more dead ones. */
  ghost predicate Grew(cfg: Config, log: seq<Entry>, own: seq<Own>, log': seq<Entry>, own': seq<Own>)
    requires cfg.slotSize >= 6
  {
    && |log| <= |log'| && own <= own'
    && (|own| < |own'| ==> own'[|own|] == Own(|log|, 0))
    && (|own| == |own'| ==> |log| == |log'|)
    && (forall m :: 0 <= m < |log| ==> EntryGrew(cfg, log[m], log'[m]))
    && (forall at :: |own| <= at < |own'| ==> !Published(log', own', at))
  }

  lemma SettledStays(cfg: Config, log: seq<Entry>, own: seq<Own>, log': seq<Entry>, own': seq<Own>, at: nat)
    requires cfg.slotSize >= 6 && LogInv(cfg, log, own) && Grew(cfg, log, own, log', own')
    ensures Published(log, own, at) ==> Published(log', own', at)
    ensures Settled(log, own, at) ==> Settled(log', own', at)
    ensures OwnerDead(log, own, at) ==>
                  OwnerDead(log', own', at) && (Published(log', own', at) <==> Published(log, own, at))
    ensures at < |own| ==> own'[at] == own[at]
  {
    if at < |own| {
      assert own'[at] == own[at];
      assert own[at].m < |log|;
      assert EntryGrew(cfg, log[own[at].m], log'[own[at].m]);
    }
  }

  lemma TurnStays(cfg: Config, log: seq<Entry>, own: seq<Own>, log': seq<Entry>, own': seq<Own>, head: nat, r: Reader)
    requires cfg.slotSize >= 6 && LogInv(cfg, log, own) && Grew(cfg, log, own, log', own')
    requires ReaderOk(cfg, log, own, head, r)
    ensures Turn(log', own', r) == Turn(log, own, r)
    ensures AsmOk(cfg, log', own', r)
  {
    hide Partial, Complete, Settled;
    SettledStays(cfg, log, own, log', own', r.head);
    if r.asm.count > 0 {
      SettledStays(cfg, log, own, log', own', r.head - 1);
      assert EntryGrew(cfg, log[own[r.head - 1].m], log'[own[r.head - 1].m]);
    }
  }

  lemma CompleteStays(cfg: Config, log: seq<Entry>, own: seq<Own>, log': seq<Entry>, own': seq<Own>, head: nat,
                      r: Reader)
    requires cfg.slotSize >= 6 && LogInv(cfg, log, own) && Grew(cfg, log, own, log', own')
    requires ReaderOk(cfg, log, own, head, r)
    ensures Complete(cfg, log', Turn(log, own, r)) == r.delivered
  {
    var n := Turn(log, own, r);
    forall m | 0 <= m < n
      ensures log[m].msg == log'[m].msg && log[m].stamped == log'[m].stamped
    {
      DoneWithIsFinal(cfg, log, own, head, r, m);
      assert EntryGrew(cfg, log[m], log'[m]);
    }
    CompleteStable(cfg, log, log', n);
  }

  /** What a reader knows survives every growth of the log. */
  lemma ReaderStays(cfg: Config, log: seq<Entry>, own: seq<Own>, log': seq<Entry>, own': seq<Own>, head: nat, r: Reader)
    requires cfg.slotSize >= 6 && LogInv(cfg, log, own) && Grew(cfg, log, own, log', own')
    requires ReaderOk(cfg, log, own, head, r)
    ensures ReaderOk(cfg, log', own', head, r)
  {
    TurnStays(cfg, log, own, log', own', head, r);
    CompleteStays(cfg, log, own, log', own', head, r);
    SettledStays(cfg, log, own, log', own', r.head);
    forall at | 0 <= at < r.head
      ensures Settled(log', own', at)
    {
      assert Settled(log, own, at);
      SettledStays(cfg, log, own, log', own', at);
    }
  }

  lemma AllReadersStay(cfg: Config, s: State, s': State)
    requires Inv(cfg, s) && Grew(cfg, s.log, s.own, s'.log, s'.own)
    requires s'.heads == s.heads && s'.readers == s.readers
    ensures forall i :: i in cfg.readers ==> ReaderOk(cfg, s'.log, s'.own, s'.heads[i], s'.readers[i])
  {
    forall i | i in cfg.readers
      ensures ReaderOk(cfg, s'.log, s'.own, s'.heads[i], s'.readers[i])
    {
      ReaderStays(cfg, s.log, s.own, s'.log, s'.own, s.heads[i], s.readers[i]);
    }
  }

  lemma HeadsStay(cfg: Config, s: State, s': State)
    requires Inv(cfg, s) && Grew(cfg, s.log, s.own, s'.log, s'.own)
    requires s'.heads == s.heads
    requires forall i :: i in cfg.readers ==> |s'.own| <= s.heads[i] + cfg.slotCount - 1
    ensures HeadsInv(cfg, s'.log, s'.own, s'.heads)
  {
    forall i, at | i in cfg.readers && 0 <= at < s.heads[i]
      ensures Settled(s'.log, s'.own, at)
    {
      assert Settled(s.log, s.own, at);
      SettledStays(cfg, s.log, s.own, s'.log, s'.own, at);
    }
  }

  lemma PostsAppend(log: seq<Entry>, e: Entry, i: nat)
    ensures Posts(log + [e], i) == Posts(log, i) + (if e.posted > i then 1 else 0)
  {
    assert (log + [e])[..|log|] == log;
  }

  lemma CasMem(cfg: Config, s: State, c: nat)
    requires Inv(cfg, s) && c < |s.senders| && s.senders[c].pc == Cas(s.tail)
    ensures var s' := TryCasStep(Unbounded, cfg, s, c, false).value;
            Grew(cfg, s.log, s.own, s'.log, s'.own) && MemInv(cfg, s'.log, s'.own, s'.slots)
  {
    hide ReaderOk, BackLink, TokensInv, SenderOk;
    var s' := TryCasStep(Unbounded, cfg, s, c, false).value;
    NeedBounds(cfg.slotSize, |s.senders[c].msg.data|);
    assert s'.own[|s.own|] == Own(|s.log|, 0);
    forall at | 0 <= at && Published(s'.log, s'.own, at)
      ensures Published(s.log, s.own, at)
    {
      if at < |s.own| {
        assert s'.own[at] == s.own[at];
      }
    }
    forall at | 0 <= at && Published(s.log, s.own, at)
      ensures Published(s'.log, s'.own, at)
    {
      SettledStays(cfg, s.log, s.own, s'.log, s'.own, at);
    }
  }

  lemma CasSenders(cfg: Config, s: State, c: nat, d: nat)
    requires Inv(cfg, s) && c < |s.senders| && s.senders[c].pc == Cas(s.tail) && d < |s.senders|
    ensures var s' := TryCasStep(Unbounded, cfg, s, c, false).value;
            SenderOk(cfg, s'.log, s'.own, s'.slots, s'.heads, d, s'.senders[d])
  {
    assert SenderOk(cfg, s.log, s.own, s.slots, s.heads, d, s.senders[d]);
    NeedBounds(cfg.slotSize, |s.senders[c].msg.data|);
  }

  lemma CasShape(cfg: Config, s: State, c: nat)
    requires Inv(cfg, s) && c < |s.senders| && s.senders[c].pc == Cas(s.tail)
    ensures var s' := TryCasStep(Unbounded, cfg, s, c, false).value;
            s'.Shaped(cfg) && BackLink(s'.log, s'.senders)
  {
    hide LogInv, MemInv, HeadsInv, ReaderOk, TokensInv;
    var s' := TryCasStep(Unbounded, cfg, s, c, false).value;
    forall d | 0 <= d < |s'.senders|
      ensures s'.SenderShaped(cfg, s'.senders[d])
    {
      assert s.SenderShaped(cfg, s.senders[d]);
    }
  }

  lemma TryCasKeeps(cfg: Config, s: State, c: nat, spurious: bool)
    requires Inv(cfg, s) && c < |s.senders|
    ensures var r := TryCasStep(Unbounded, cfg, s, c, spurious); r.Some? ==> Inv(cfg, r.value)
  {
    var r := TryCasStep(Unbounded, cfg, s, c, spurious);
    if r.Some? {
      var s' := r.value;
      assert SenderOk(cfg, s.log, s.own, s.slots, s.heads, c, s.senders[c]);
      if s'.log == s.log {
        LocalKeeps(cfg, s, c, Start);
      } else {
        CasLog(cfg, s, c);
        CasMem(cfg, s, c);
        HeadsStay(cfg, s, s');
        AllReadersStay(cfg, s, s');
        forall d | 0 <= d < |s.senders|
          ensures SenderOk(cfg, s'.log, s'.own, s'.slots, s'.heads, d, s'.senders[d])
        {
          CasSenders(cfg, s, c, d);
        }
        CasShape(cfg, s, c);
        forall i | i in cfg.readers
          ensures s'.tokens[i] + s'.readers[i].waits == Posts(s'.log, i)
        {
          PostsAppend(s.log, s'.log[|s.log|], i);
        }
      }
    }
  }

  // ----- writing and stamping a slot -----

  ghost predicate Writing(snd: Sender) {
    snd.pc.Fill? || snd.pc.Stamp?
  }

  /** The slot a sender is writing lies inside the last lap of every active reader, and nobody published it. */
  lemma WrittenSlotIsLive(cfg: Config, s: State, c: nat)
    requires Inv(cfg, s) && c < |s.senders| && Writing(s.senders[c])
    ensures var pc := s.senders[c].pc;
            && pc.at < |s.own| <= pc.at + cfg.slotCount - 1
            && s.own[pc.at] == Own(pc.m, pc.k)
            && !Published(s.log, s.own, pc.at)
            && (forall i :: i in cfg.readers ==> s.heads[i] <= pc.at && s.readers[i].head <= pc.at)
  {
    hide LogInv, MemInv, BackLink, TokensInv, Carries, AsmOk, Complete, Turn;
    var pc := s.senders[c].pc;
    assert SenderOk(cfg, s.log, s.own, s.slots, s.heads, c, s.senders[c]);
    OwnerAt(cfg, s.log, s.own, pc.m, pc.k);
    forall i | i in cfg.readers
      ensures s.heads[i] <= pc.at && s.readers[i].head <= pc.at
    {
      assert ReaderOk(cfg, s.log, s.own, s.heads[i], s.readers[i]);
      UnpublishedIsAhead(cfg, s.log, s.own, pc.m, pc.at, s.readers[i].head);
    }
    var r :| r in cfg.readers;
  }

  /** No other position of the current lap shares the slot. */
  lemma NoClash(cfg: Config, s: State, c: nat, at: nat)
    requires Inv(cfg, s) && c < |s.senders| && Writing(s.senders[c])
    requires at < |s.own| <= at + cfg.slotCount && at != s.senders[c].pc.at
    ensures at % cfg.slotCount != s.senders[c].pc.at % cfg.slotCount
  {
    WrittenSlotIsLive(cfg, s, c);
    var mine := s.senders[c].pc.at;
    if at < mine {
      ResiduesDiffer(at, mine, cfg.slotCount);
    } else {
      ResiduesDiffer(mine, at, cfg.slotCount);
    }
  }

  /** Two senders never own the same physical slot. */
  lemma WritersApart(cfg: Config, s: State, c: nat, d: nat)
    requires Inv(cfg, s) && c < |s.senders| && d < |s.senders| && c != d
    requires Writing(s.senders[c]) && Writing(s.senders[d])
    ensures s.senders[c].pc.m != s.senders[d].pc.m
    ensures s.senders[c].pc.at != s.senders[d].pc.at
    ensures s.senders[c].pc.at % cfg.slotCount != s.senders[d].pc.at % cfg.slotCount
  {
    assert SenderOk(cfg, s.log, s.own, s.slots, s.heads, c, s.senders[c]);
    assert SenderOk(cfg, s.log, s.own, s.slots, s.heads, d, s.senders[d]);
    WrittenSlotIsLive(cfg, s, c);
    WrittenSlotIsLive(cfg, s, d);
    NoClash(cfg, s, c, s.senders[d].pc.at);
  }

  lemma FillCarries(cfg: Config, s: State, c: nat)
    requires Inv(cfg, s) && c < |s.senders| && s.senders[c].pc.Fill?
    ensures var r := FillSlotStep(cfg, s, c);
            r.Some? && r.value.Shaped(cfg)
            && SenderOk(cfg, r.value.log, r.value.own, r.value.slots, r.value.heads, c, r.value.senders[c])
  {
    hide LogInv, MemInv, HeadsInv, ReaderOk, TokensInv, BackLink;
    var pc := s.senders[c].pc;
    assert SenderOk(cfg, s.log, s.own, s.slots, s.heads, c, s.senders[c]);
    var s' := FillSlotStep(cfg, s, c).value;
    forall d | 0 <= d < |s'.senders|
      ensures s'.SenderShaped(cfg, s'.senders[d])
    {
      assert s.SenderShaped(cfg, s.senders[d]);
    }
  }

  /** Whatever an unstamped slot's owner puts into it, no published slot is harmed ... */
  lemma RewriteMem(cfg: Config, s: State, c: nat, slot: Slot)
    requires Inv(cfg, s) && c < |s.senders| && s.senders[c].pc.Fill? && |slot.data| == cfg.slotSize
    requires slot.stamp == s.slots[s.senders[c].pc.at % cfg.slotCount].stamp
    ensures MemInv(cfg, s.log, s.own, s.slots[s.senders[c].pc.at % cfg.slotCount := slot])
  {
    hide LogInv, HeadsInv, SenderOk, BackLink, ReaderOk, TokensInv, Carries;
    WrittenSlotIsLive(cfg, s, c);
    var slots := s.slots[s.senders[c].pc.at % cfg.slotCount := slot];
    forall at | 0 <= at && at + cfg.slotCount >= |s.own| && Published(s.log, s.own, at)
      ensures Intact(cfg, s.log, s.own, slots, at)
    {
      NoClash(cfg, s, c, at);
      assert Intact(cfg, s.log, s.own, s.slots, at);
    }
  }

  /** ... and no other sender. */
  lemma RewriteOthers(cfg: Config, s: State, c: nat, slot: Slot, d: nat)
    requires Inv(cfg, s) && c < |s.senders| && s.senders[c].pc.Fill? && d < |s.senders| && d != c
    ensures SenderOk(cfg, s.log, s.own, s.slots[s.senders[c].pc.at % cfg.slotCount := slot], s.heads, d, s.senders[d])
  {
    hide LogInv, MemInv, HeadsInv, ReaderOk, TokensInv, BackLink, Carries;
    assert SenderOk(cfg, s.log, s.own, s.slots, s.heads, d, s.senders[d]);
    if s.senders[d].pc.Stamp? {
      WritersApart(cfg, s, c, d);
    }
  }

  lemma ScribbleKeeps(cfg: Config, s: State, c: nat, id: nat, count: nat, data: seq<byte>)
    requires Inv(cfg, s) && c < |s.senders|
    ensures var r := ScribbleStep(cfg, s, c, id, count, data); r.Some? ==> Inv(cfg, r.value)
  {
    hide LogInv, MemInv, HeadsInv, ReaderOk, Posts, BackLink, Carries;
    var r := ScribbleStep(cfg, s, c, id, count, data);
    if r.Some? {
      var s' := r.value;
      var slot := s'.slots[s.senders[c].pc.at % cfg.slotCount];
      RewriteMem(cfg, s, c, slot);
      forall d | 0 <= d < |s.senders|
        ensures SenderOk(cfg, s'.log, s'.own, s'.slots, s'.heads, d, s'.senders[d])
        ensures s'.SenderShaped(cfg, s'.senders[d])
      {
        assert s.SenderShaped(cfg, s.senders[d]);
        if d != c {
          RewriteOthers(cfg, s, c, slot, d);
        } else {
          assert SenderOk(cfg, s.log, s.own, s.slots, s.heads, c, s.senders[c]);
        }
      }
    }
  }

  lemma FillLinks(cfg: Config, s: State, c: nat)
    requires Inv(cfg, s) && c < |s.senders| && s.senders[c].pc.Fill?
    ensures var r := FillSlotStep(cfg, s, c); r.Some? ==> BackLink(r.value.log, r.value.senders)
  {
    hide LogInv, MemInv, HeadsInv, ReaderOk, TokensInv, Carries;
    assert SenderOk(cfg, s.log, s.own, s.slots, s.heads, c, s.senders[c]);
  }

  lemma FillSlotKeeps(cfg: Config, s: State, c: nat)
    requires Inv(cfg, s) && c < |s.senders|
    ensures var r := FillSlotStep(cfg, s, c); r.Some? ==> Inv(cfg, r.value)
  {
    hide LogInv, MemInv, HeadsInv, ReaderOk, Posts, SenderOk, BackLink;
    var r := FillSlotStep(cfg, s, c);
    if r.Some? {
      FillCarries(cfg, s, c);
      var s' := r.value;
      var slot := s'.slots[s.senders[c].pc.at % cfg.slotCount];
      RewriteMem(cfg, s, c, slot);
      forall d | 0 <= d < |s.senders|
        ensures SenderOk(cfg, s'.log, s'.own, s'.slots, s'.heads, d, s'.senders[d])
      {
        if d != c {
          RewriteOthers(cfg, s, c, slot, d);
        }
      }
      FillLinks(cfg, s, c);
    }
  }

  /** Replacing one entry by a later version of itself. */
  lemma LogEdited(cfg: Config, log: seq<Entry>, own: seq<Own>, m: nat, e: Entry)
    requires cfg.slotSize >= 6 && LogInv(cfg, log, own) && m < |log|
    requires EntryGrew(cfg, log[m], e) && EntryOk(cfg, own, e)
    ensures LogInv(cfg, log[m := e], own)
    ensures Grew(cfg, log, own, log[m := e], own)
  {
    var log' := log[m := e];
    forall x | 0 <= x < |log|
      ensures EntryGrew(cfg, log[x], log'[x]) && EntryOk(cfg, own, log'[x])
    {
      assert EntryOk(cfg, own, log[x]);
    }
  }

  /** One more stamp publishes one more sequence number. */
  lemma OneMorePublished(cfg: Config, log: seq<Entry>, own: seq<Own>, m: nat, e: Entry, mine: nat, at: nat)
    requires cfg.slotSize >= 6 && LogInv(cfg, log, own) && m < |log|
    requires log[m].stamped < NeedOf(cfg, log[m]) && mine == log[m].start + log[m].stamped
    requires e.stamped == log[m].stamped + 1
    ensures Published(log[m := e], own, at) <==> at == mine || Published(log, own, at)
  {
    OwnerAt(cfg, log, own, m, log[m].stamped);
    if at < |own| && own[at].m == m {
      assert log[m].start + own[at].k == at;
    }
  }

  lemma OneMoreStamp(cfg: Config, log: seq<Entry>, own: seq<Own>, m: nat)
    requires cfg.slotSize >= 6 && LogInv(cfg, log, own) && m < |log|
    requires !log[m].dead && log[m].stamped < NeedOf(cfg, log[m]) && log[m].posted == 0
    ensures var log' := log[m := log[m].(stamped := log[m].stamped + 1)];
            Grew(cfg, log, own, log', own) && LogInv(cfg, log', own)
  {
    assert EntryOk(cfg, own, log[m]);
    LogEdited(cfg, log, own, m, log[m].(stamped := log[m].stamped + 1));
  }

  lemma StampGrew(cfg: Config, s: State, c: nat)
    requires s.Shaped(cfg) && LogInv(cfg, s.log, s.own) && c < |s.senders| && s.senders[c].pc.Stamp?
    requires SenderOk(cfg, s.log, s.own, s.slots, s.heads, c, s.senders[c])
    ensures var s' := StampSlotStep(Unbounded, cfg, s, c).value;
            Grew(cfg, s.log, s.own, s'.log, s'.own) && LogInv(cfg, s'.log, s'.own)
  {
    var m := s.senders[c].pc.m;
    OneMoreStamp(cfg, s.log, s.own, m);
    var s' := StampSlotStep(Unbounded, cfg, s, c).value;
    assert s'.log == s.log[m := s.log[m].(stamped := s.log[m].stamped + 1)];
  }

  lemma StampIntact(cfg: Config, s: State, c: nat, at: nat)
    requires Inv(cfg, s) && c < |s.senders| && s.senders[c].pc.Stamp?
    requires var s' := StampSlotStep(Unbounded, cfg, s, c).value;
             at + cfg.slotCount >= |s.own| && Published(s'.log, s'.own, at)
    ensures var s' := StampSlotStep(Unbounded, cfg, s, c).value;
            Intact(cfg, s'.log, s'.own, s'.slots, at)
  {
    var pc := s.senders[c].pc;
    var s' := StampSlotStep(Unbounded, cfg, s, c).value;
    assert SenderOk(cfg, s.log, s.own, s.slots, s.heads, c, s.senders[c]);
    WrittenSlotIsLive(cfg, s, c);
    if at != pc.at {
      OneMorePublished(cfg, s.log, s.own, pc.m, s'.log[pc.m], pc.at, at);
      NoClash(cfg, s, c, at);
      assert Intact(cfg, s.log, s.own, s.slots, at);
    }
  }

  /** A stamp in memory is a promise kept. */
  lemma StampSound(cfg: Config, s: State, c: nat, p: nat)
    requires Inv(cfg, s) && c < |s.senders| && s.senders[c].pc.Stamp? && p < cfg.slotCount
    ensures var s' := StampSlotStep(Unbounded, cfg, s, c).value;
            var stamp := s'.slots[p].stamp;
            stamp != 0 ==> Published(s'.log, s'.own, stamp - 1) && (stamp - 1) % cfg.slotCount == p
  {
    hide ReaderOk, HeadsInv, BackLink, TokensInv;
    var pc := s.senders[c].pc;
    var s' := StampSlotStep(Unbounded, cfg, s, c).value;
    assert SenderOk(cfg, s.log, s.own, s.slots, s.heads, c, s.senders[c]);
    var stamp := s'.slots[p].stamp;
    if stamp != 0 {
      OneMorePublished(cfg, s.log, s.own, pc.m, s'.log[pc.m], pc.at, stamp - 1);
    }
  }

  lemma StampMem(cfg: Config, s: State, c: nat)
    requires Inv(cfg, s) && c < |s.senders| && s.senders[c].pc.Stamp?
    ensures var s' := StampSlotStep(Unbounded, cfg, s, c).value;
            MemInv(cfg, s'.log, s'.own, s'.slots)
  {
    var s' := StampSlotStep(Unbounded, cfg, s, c).value;
    forall at | 0 <= at && at + cfg.slotCount >= |s.own| && Published(s'.log, s'.own, at)
      ensures Intact(cfg, s'.log, s'.own, s'.slots, at)
    {
      StampIntact(cfg, s, c, at);
    }
    forall p | 0 <= p < cfg.slotCount && s'.slots[p].stamp != 0
      ensures Published(s'.log, s'.own, s'.slots[p].stamp - 1) && (s'.slots[p].stamp - 1) % cfg.slotCount == p
    {
      StampSound(cfg, s, c, p);
    }
  }

  lemma StampNext(cfg: Config, s: State, c: nat)
    requires Inv(cfg, s) && c < |s.senders| && s.senders[c].pc.Stamp?
    ensures var s' := StampSlotStep(Unbounded, cfg, s, c).value;
            s'.Shaped(cfg) && SenderOk(cfg, s'.log, s'.own, s'.slots, s'.heads, c, s'.senders[c])
  {
    hide LogInv, MemInv, HeadsInv, ReaderOk, BackLink, TokensInv;
    var pc := s.senders[c].pc;
    var s' := StampSlotStep(Unbounded, cfg, s, c).value;
    assert SenderOk(cfg, s.log, s.own, s.slots, s.heads, c, s.senders[c]);
    LoopRunsNeedTimes(cfg.slotSize, |s.senders[c].msg.data|, pc.k + 1);
    forall d | 0 <= d < |s'.senders|
      ensures s'.SenderShaped(cfg, s'.senders[d])
    {
      assert s.SenderShaped(cfg, s.senders[d]);
    }
  }

  lemma PostsUpdate(log: seq<Entry>, m: nat, e: Entry, i: nat)
    requires m < |log|
    ensures Posts(log[m := e], i)
         == Posts(log, i) - (if log[m].posted > i then 1 else 0) + (if e.posted > i then 1 else 0)
  {
    var n := |log| - 1;
    if m == n {
      assert log[m := e][..n] == log[..n];
    } else {
      assert log[m := e][..n] == log[..n][m := e];
      PostsUpdate(log[..n], m, e, i);
    }
  }

  /** Other senders do not notice that `c` moved on with its own reservation. */
  lemma OthersKeep(cfg: Config, s: State, s': State, c: nat, m: nat)
    requires Inv(cfg, s) && c < |s.senders| && Holding(s.senders[c].pc) == Some(m) && m < |s.log|
    requires s'.own == s.own && s'.heads == s.heads && |s'.slots| == cfg.slotCount
    requires |s'.log| == |s.log| && forall x :: 0 <= x < |s.log| && x != m ==> s'.log[x] == s.log[x]
    requires forall p :: 0 <= p < |s.slots| ==> s'.slots[p].(stamp := 0) == s.slots[p].(stamp := 0)
    requires s.log[m].call == c
    ensures forall d :: 0 <= d < |s.senders| && d != c ==>
                          SenderOk(cfg, s'.log, s'.own, s'.slots, s'.heads, d, s.senders[d])
  {
    hide LogInv, MemInv, HeadsInv, ReaderOk, BackLink, TokensInv, Slice;
    forall d | 0 <= d < |s.senders| && d != c
      ensures SenderOk(cfg, s'.log, s'.own, s'.slots, s'.heads, d, s.senders[d])
    {
      assert SenderOk(cfg, s.log, s.own, s.slots, s.heads, d, s.senders[d]);
      if s.senders[d].pc.Stamp? {
        var p := s.senders[d].pc.at % cfg.slotCount;
        assert s'.slots[p].(stamp := 0) == s.slots[p].(stamp := 0);
      }
    }
  }

  lemma TokensUpdate(cfg: Config, s: State, s': State, m: nat, e: Entry)
    requires s.Shaped(cfg) && s'.Shaped(cfg) && TokensInv(cfg, s) && m < |s.log| && s'.log == s.log[m := e]
    requires s'.readers == s.readers
    requires forall i :: i in cfg.readers ==>
      s'.tokens[i] + (if s.log[m].posted > i then 1 else 0) == s.tokens[i] + (if e.posted > i then 1 else 0)
    ensures TokensInv(cfg, s')
  {
    forall i | i in cfg.readers
      ensures s'.tokens[i] + s'.readers[i].waits == Posts(s'.log, i)
    {
      PostsUpdate(s.log, m, e, i);
    }
  }

  lemma HolderLinks(s: State, s': State, c: nat, m: nat)
    requires BackLink(s.log, s.senders) && c < |s.senders| && Holding(s.senders[c].pc) == Some(m) && m < |s.log|
    requires |s'.senders| == |s.senders| && s'.senders == s.senders[c := s'.senders[c]]
    requires |s'.log| == |s.log| && s'.log == s.log[m := s'.log[m]] && s'.log[m].call == c
    requires s'.log[m].dead || Holding(s'.senders[c].pc) == Some(m)
    ensures BackLink(s'.log, s'.senders)
  {
  }

  /** After a step of the call that holds entry `m`, the rest of the invariant follows from its parts. */
  lemma HolderStepKeeps(cfg: Config, s: State, s': State, c: nat, m: nat)
    requires Inv(cfg, s) && c < |s.senders| && Holding(s.senders[c].pc) == Some(m) && m < |s.log|
    requires s'.Shaped(cfg) && s'.tail == s.tail && s'.own == s.own && s'.heads == s.heads && s'.readers == s.readers
    requires |s'.senders| == |s.senders| && s'.senders == s.senders[c := s'.senders[c]]
    requires |s'.log| == |s.log| && s'.log == s.log[m := s'.log[m]] && s.log[m].call == s'.log[m].call == c
    requires forall p :: 0 <= p < |s.slots| ==> s'.slots[p].(stamp := 0) == s.slots[p].(stamp := 0)
    requires LogInv(cfg, s'.log, s'.own) && Grew(cfg, s.log, s.own, s'.log, s'.own)
    requires MemInv(cfg, s'.log, s'.own, s'.slots)
    requires SenderOk(cfg, s'.log, s'.own, s'.slots, s'.heads, c, s'.senders[c])
    requires s'.log[m].dead || Holding(s'.senders[c].pc) == Some(m)
    requires TokensInv(cfg, s')
    ensures Inv(cfg, s')
  {
    HeadsStay(cfg, s, s');
    AllReadersStay(cfg, s, s');
    OthersKeep(cfg, s, s', c, m);
    HolderLinks(s, s', c, m);
  }

  lemma StampSlotKeeps(cfg: Config, s: State, c: nat)
    requires Inv(cfg, s) && c < |s.senders|
    ensures var r := StampSlotStep(Unbounded, cfg, s, c); r.Some? ==> Inv(cfg, r.value)
  {
    hide LogInv, MemInv, HeadsInv, ReaderOk, TokensInv, Grew, Carries, BackLink;
    var r := StampSlotStep(Unbounded, cfg, s, c);
    if r.Some? {
      var s' := r.value;
      var pc := s.senders[c].pc;
      assert SenderOk(cfg, s.log, s.own, s.slots, s.heads, c, s.senders[c]);
      StampGrew(cfg, s, c);
      StampMem(cfg, s, c);
      StampNext(cfg, s, c);
      TokensUpdate(cfg, s, s', pc.m, s'.log[pc.m]);
      HolderStepKeeps(cfg, s, s', c, pc.m);
    }
  }

  lemma ShapeStays(cfg: Config, s: State, s': State, c: nat)
    requires s.Shaped(cfg) && c < |s.senders| == |s'.senders| && s'.senders == s.senders[c := s'.senders[c]]
    requires |s'.log| == |s.log| && s'.slots == s.slots && s'.heads == s.heads && s'.readers == s.readers
    requires |s'.tokens| == |s.tokens| && s'.SenderShaped(cfg, s'.senders[c])
    ensures s'.Shaped(cfg)
  {
    forall d | 0 <= d < |s'.senders|
      ensures s'.SenderShaped(cfg, s'.senders[d])
    {
      assert s.SenderShaped(cfg, s.senders[d]);
    }
  }

  /** A change of one entry that alters only its bookkeeping. */
  lemma EntryEdited(cfg: Config, log: seq<Entry>, own: seq<Own>, slots: seq<Slot>, m: nat, e: Entry)
    requires cfg.Valid() && LogInv(cfg, log, own) && MemInv(cfg, log, own, slots) && m < |log|
    requires e.msg == log[m].msg && e.start == log[m].start && e.stamped == log[m].stamped
    ensures MemInv(cfg, log[m := e], own, slots)
  {
    var log' := log[m := e];
    assert forall at :: 0 <= at ==> (Published(log', own, at) <==> Published(log, own, at));
    forall at | 0 <= at && at + cfg.slotCount >= |own| && Published(log', own, at)
      ensures Intact(cfg, log', own, slots, at)
    {
      assert Intact(cfg, log, own, slots, at);
    }
  }

  lemma PostOneKeeps(cfg: Config, s: State, c: nat)
    requires Inv(cfg, s) && c < |s.senders| && s.senders[c].pc.Post? && s.senders[c].pc.i < MAX_READER_COUNT
    ensures var r := PostSemStep(cfg, s, c); r.Some? && Inv(cfg, r.value)
  {
    hide MemInv, HeadsInv, ReaderOk, TokensInv, BackLink, Carries;
    var pc := s.senders[c].pc;
    assert s.SenderShaped(cfg, s.senders[c]);
    var s' := PostSemStep(cfg, s, c).value;
    assert SenderOk(cfg, s.log, s.own, s.slots, s.heads, c, s.senders[c]);
    assert EntryOk(cfg, s.own, s.log[pc.m]);
    LogEdited(cfg, s.log, s.own, pc.m, s'.log[pc.m]);
    EntryEdited(cfg, s.log, s.own, s.slots, pc.m, s'.log[pc.m]);
    ShapeStays(cfg, s, s', c);
    TokensUpdate(cfg, s, s', pc.m, s'.log[pc.m]);
    HolderStepKeeps(cfg, s, s', c, pc.m);
  }

  lemma PostSemKeeps(cfg: Config, s: State, c: nat)
    requires Inv(cfg, s) && c < |s.senders|
    ensures var r := PostSemStep(cfg, s, c); r.Some? ==> Inv(cfg, r.value)
  {
    var r := PostSemStep(cfg, s, c);
    if r.Some? {
      var pc := s.senders[c].pc;
      assert SenderOk(cfg, s.log, s.own, s.slots, s.heads, c, s.senders[c]);
      if pc.i >= MAX_READER_COUNT {
        LocalKeeps(cfg, s, c, Returned(pc.m));
      } else {
        PostOneKeeps(cfg, s, c);
      }
    }
  }

  lemma KillOwnerKeeps(cfg: Config, s: State, c: nat, m: nat)
    requires Inv(cfg, s) && c < |s.senders| && Holding(s.senders[c].pc) == Some(m)
    requires m < |s.log| && s.log[m].call == c
    ensures var r := KillOwner(s, c, m); r.Some? && Inv(cfg, r.value)
  {
    var s' := KillOwner(s, c, m).value;
    assert EntryOk(cfg, s.own, s.log[m]);
    LogEdited(cfg, s.log, s.own, m, s'.log[m]);
    EntryEdited(cfg, s.log, s.own, s.slots, m, s'.log[m]);
    assert SenderOk(cfg, s.log, s.own, s.slots, s.heads, c, s.senders[c]);
    ShapeStays(cfg, s, s', c);
    TokensUpdate(cfg, s, s', m, s'.log[m]);
    HolderStepKeeps(cfg, s, s', c, m);
  }

  lemma KillKeeps(cfg: Config, s: State, c: nat)
    requires Inv(cfg, s) && c < |s.senders|
    ensures var r := KillStep(s, c); r.Some? ==> Inv(cfg, r.value)
  {
    var r := KillStep(s, c);
    if r.Some? {
      assert SenderOk(cfg, s.log, s.own, s.slots, s.heads, c, s.senders[c]);
      if Holding(s.senders[c].pc) == None {
        LocalKeeps(cfg, s, c, Dead);
      } else {
        KillOwnerKeeps(cfg, s, c, Holding(s.senders[c].pc).value);
      }
    }
  }

  // ----- readers -----

  /** A reader step that leaves everything but this reader's own variables alone. */
  lemma ReaderLocal(cfg: Config, s: State, i: nat, r: Reader)
    requires Inv(cfg, s) && i in cfg.readers
    requires ReaderOk(cfg, s.log, s.own, s.heads[i], r) && r.waits == s.readers[i].waits
    ensures Inv(cfg, SetReader(s, i, r))
  {
    hide LogInv, MemInv, HeadsInv, SenderOk, BackLink, Posts, ReaderOk;
    var s' := SetReader(s, i, r);
    assert s'.Shaped(cfg) by {
      forall d | 0 <= d < |s'.senders|
        ensures s'.SenderShaped(cfg, s'.senders[d])
      {
        assert s.SenderShaped(cfg, s.senders[d]);
      }
    }
  }

  lemma WaitKeeps(cfg: Config, s: State, i: nat)
    requires Inv(cfg, s) && i in cfg.readers
    ensures var r := WaitStep(cfg, s, i); r.Some? ==> Inv(cfg, r.value)
  {
    hide LogInv, MemInv, HeadsInv, SenderOk, BackLink, Posts;
    var r := WaitStep(cfg, s, i);
    if r.Some? {
      var s' := r.value;
      assert ReaderOk(cfg, s.log, s.own, s.heads[i], s.readers[i]);
      assert ReaderOk(cfg, s.log, s.own, s.heads[i], s'.readers[i]);
      forall d | 0 <= d < |s'.senders|
        ensures s'.SenderShaped(cfg, s'.senders[d])
      {
        assert s.SenderShaped(cfg, s.senders[d]);
      }
    }
  }

  /** At the tail a reader is between messages, so giving up drops nothing. */
  lemma LookOk(cfg: Config, log: seq<Entry>, own: seq<Own>, head: nat, r: Reader)
    requires cfg.slotSize >= 6 && LogInv(cfg, log, own) && ReaderOk(cfg, log, own, head, r) && r.pc == Loop
    ensures r.head == |own| ==> r.asm.count == 0 && ReaderOk(cfg, log, own, head, Finish(r))
    ensures r.head < |own| ==> ReaderOk(cfg, log, own, head, r.(pc := Check(|own|)))
  {
    if r.asm.count > 0 {
      NextOwner(cfg, log, own, r.head - 1);
    }
  }

  lemma LookKeeps(cfg: Config, s: State, i: nat)
    requires Inv(cfg, s) && i in cfg.readers
    ensures var r := LookStep(cfg, s, i); r.Some? ==> Inv(cfg, r.value)
  {
    var r := LookStep(cfg, s, i);
    if r.Some? {
      LookOk(cfg, s.log, s.own, s.heads[i], s.readers[i]);
      ReaderLocal(cfg, s, i, r.value.readers[i]);
    }
  }

  /** A stamp that equals its own sequence number plus one was put there by the slot's owner. */
  lemma StampMeansPublished(cfg: Config, log: seq<Entry>, own: seq<Own>, slots: seq<Slot>, at: nat)
    requires cfg.Valid() && MemInv(cfg, log, own, slots)
    requires slots[at % cfg.slotCount].stamp == at + 1
    ensures Published(log, own, at)
  {
  }

  lemma CheckStampOk(cfg: Config, log: seq<Entry>, own: seq<Own>, slots: seq<Slot>, head: nat, r: Reader)
    requires cfg.Valid() && MemInv(cfg, log, own, slots) && ReaderOk(cfg, log, own, head, r) && r.pc.Check?
    ensures ReaderOk(cfg, log, own, head, r.(pc := Loop))
    ensures slots[r.head % cfg.slotCount].stamp == r.head + 1 ==> ReaderOk(cfg, log, own, head, r.(pc := Copy))
  {
    if slots[r.head % cfg.slotCount].stamp == r.head + 1 {
      StampMeansPublished(cfg, log, own, slots, r.head);
    }
  }

  lemma CheckStampKeeps(cfg: Config, s: State, i: nat)
    requires Inv(cfg, s) && i in cfg.readers
    ensures var r := CheckStampStep(Unbounded, cfg, s, i); r.Some? ==> Inv(cfg, r.value)
  {
    var r := CheckStampStep(Unbounded, cfg, s, i);
    if r.Some? {
      CheckStampOk(cfg, s.log, s.own, s.slots, s.heads[i], s.readers[i]);
      ReaderLocal(cfg, s, i, r.value.readers[i]);
    }
  }

  /** A reader that copies finds the slice it expects: neither resynchronising branch of recv_impl is taken. */
  lemma CopyMeetsItsSlice(cfg: Config, log: seq<Entry>, own: seq<Own>, slots: seq<Slot>, head: nat, r: Reader)
    requires cfg.Valid() && LogInv(cfg, log, own) && MemInv(cfg, log, own, slots)
    requires ReaderOk(cfg, log, own, head, r) && r.pc == Copy && head + cfg.slotCount >= |own|
    ensures r.head < |own| && own[r.head].m < |log|
    ensures var o := own[r.head];
            var slot := slots[r.head % cfg.slotCount];
            && Carries(cfg.slotSize, log[o.m].msg, o.k, slot) && slot.stamp == r.head + 1
            && (r.asm.count == 0 ==> o.k == 0 && !BadStart(cfg.slotSize, slot))
            && (r.asm.count != 0 ==> o.k == r.asm.done && slot.id == r.asm.done
                                     && r.head > 0 && own[r.head - 1] == Own(o.m, o.k - 1))
  {
    assert Intact(cfg, log, own, slots, r.head);
    var slot := slots[r.head % cfg.slotCount];
    var o := own[r.head];
    assert EntryOk(cfg, own, log[o.m]);
    if r.asm.count == 0 {
      HeaderDecodes(cfg.slotSize, log[o.m].msg, slot);
    } else {
      NextOwner(cfg, log, own, r.head - 1);
    }
  }

  /** One slice further into the message that owns the head. */
  lemma AdvanceOk(cfg: Config, log: seq<Entry>, own: seq<Own>, head: nat, r: Reader, asm: Assembly)
    requires cfg.slotSize >= 6 && LogInv(cfg, log, own) && ReaderOk(cfg, log, own, head, r)
    requires r.pc == Copy && r.head < |own| && own[r.head].m < |log|
    requires Partial(cfg.slotSize, log[own[r.head].m].msg, own[r.head].k + 1, asm)
    requires r.asm.count != 0 ==> r.head > 0 && own[r.head - 1].m == own[r.head].m
    ensures var fin := asm.count > 0 && asm.done >= asm.count;
            ReaderOk(cfg, log, own, head, r.(pc := Publish(fin), head := r.head + 1, pos := r.pos + 1, asm := asm))
  {
    var m := own[r.head].m;
    assert EntryOk(cfg, own, log[m]);
    var r' := r.(pc := Publish(asm.done >= asm.count), head := r.head + 1, pos := r.pos + 1, asm := asm);
    assert asm.count == NeedOf(cfg, log[m]) > 0;
    assert Turn(log, own, r') == m == Turn(log, own, r);
    assert Settled(log, own, r.head);
  }

  lemma CopyOk(cfg: Config, log: seq<Entry>, own: seq<Own>, slots: seq<Slot>, head: nat, r: Reader)
    requires cfg.Valid() && LogInv(cfg, log, own) && MemInv(cfg, log, own, slots)
    requires ReaderOk(cfg, log, own, head, r) && r.pc == Copy && head + cfg.slotCount >= |own|
    ensures var asm := Absorb(cfg.slotSize, r.asm, slots[r.head % cfg.slotCount]);
            var fin := asm.count > 0 && asm.done >= asm.count;
            ReaderOk(cfg, log, own, head, r.(pc := Publish(fin), head := r.head + 1, pos := r.pos + 1, asm := asm))
  {
    CopyMeetsItsSlice(cfg, log, own, slots, head, r);
    var slot := slots[r.head % cfg.slotCount];
    var o := own[r.head];
    var msg := log[o.m].msg;
    assert EntryOk(cfg, own, log[o.m]);
    var asm := Absorb(cfg.slotSize, r.asm, slot);
    assert Partial(cfg.slotSize, msg, o.k + 1, asm) by {
      if r.asm.count == 0 {
        AbsorbFirst(cfg.slotSize, msg, r.asm, slot);
      } else {
        AbsorbNext(cfg.slotSize, msg, o.k, r.asm, slot);
      }
    }
    AdvanceOk(cfg, log, own, head, r, asm);
  }

  lemma CopySlotKeeps(cfg: Config, s: State, i: nat)
    requires Inv(cfg, s) && i in cfg.readers
    ensures var r := CopySlotStep(Unbounded, cfg, s, i); r.Some? ==> Inv(cfg, r.value)
  {
    hide LogInv, Absorb, Posts, SenderOk, BackLink, Carries;
    var r := CopySlotStep(Unbounded, cfg, s, i);
    if r.Some? {
      CopyOk(cfg, s.log, s.own, s.slots, s.heads[i], s.readers[i]);
      ReaderLocal(cfg, s, i, r.value.readers[i]);
    }
  }

  lemma AssembledIsMessage(cfg: Config, msg: Message, a: Assembly)
    requires cfg.slotSize >= 6 && |msg.data| > 0 && Partial(cfg.slotSize, msg, a.done, a) && a.done == a.count
    ensures Message(a.id, a.buf) == msg && a.idx == |msg.data| && a.count == cfg.Need(msg)
  {
    PartialComplete(cfg.slotSize, msg, a);
  }

  /** The end of recv_impl: a complete message joins the delivered ones, and it is the next one. */
  lemma DeliverOk(cfg: Config, log: seq<Entry>, own: seq<Own>, head: nat, r: Reader)
    requires cfg.slotSize >= 6 && LogInv(cfg, log, own) && ReaderOk(cfg, log, own, head, r)
    requires r.pc == Publish(true) && r.asm.count > 0
    ensures own[r.head - 1].m < |log|
    ensures Finish(r).delivered == r.delivered + [log[own[r.head - 1].m].msg]
    ensures Finish(r).delivered == Complete(cfg, log, own[r.head - 1].m + 1)
    ensures Turn(log, own, Finish(r)) == own[r.head - 1].m + 1 && Boundary(log, own, r.head)
  {
    hide Partial;
    var o := own[r.head - 1];
    NextOwner(cfg, log, own, r.head - 1);
    assert EntryOk(cfg, own, log[o.m]);
    AssembledIsMessage(cfg, log[o.m].msg, r.asm);
  }

  lemma PublishOk(cfg: Config, log: seq<Entry>, own: seq<Own>, head: nat, r: Reader)
    requires cfg.slotSize >= 6 && LogInv(cfg, log, own) && ReaderOk(cfg, log, own, head, r) && r.pc.Publish?
    ensures ReaderOk(cfg, log, own, r.head, if r.pc.fin then Finish(r) else r.(pc := Loop))
  {
    hide LogInv, Complete, Partial, Settled, Boundary;
    if r.pc.fin && r.asm.count > 0 {
      DeliverOk(cfg, log, own, head, r);
    }
  }

  lemma PublishHeadKeeps(cfg: Config, s: State, i: nat)
    requires Inv(cfg, s) && i in cfg.readers
    ensures var r := PublishHeadStep(cfg, s, i); r.Some? ==> Inv(cfg, r.value)
  {
    hide LogInv, MemInv, Posts, BackLink, Carries, AsmOk, Complete, Turn;
    var o := PublishHeadStep(cfg, s, i);
    if o.Some? {
      var s' := o.value;
      PublishOk(cfg, s.log, s.own, s.heads[i], s.readers[i]);
      assert ReaderOk(cfg, s.log, s.own, s.heads[i], s.readers[i]);
      forall d | 0 <= d < |s.senders|
        ensures SenderOk(cfg, s'.log, s'.own, s'.slots, s'.heads, d, s'.senders[d])
        ensures s'.SenderShaped(cfg, s'.senders[d])
      {
        assert SenderOk(cfg, s.log, s.own, s.slots, s.heads, d, s.senders[d]);
        assert s.SenderShaped(cfg, s.senders[d]);
      }
    }
  }

  // ----- the stall timer -----

  /** The scan stops at the first stamped slot: everything it walked over was unpublished. */
  lemma {:induction false} ScanWalksUnpublished(cfg: Config, log: seq<Entry>, own: seq<Own>, slots: seq<Slot>,
                                                at: nat, left: nat, x: nat)
    requires cfg.Valid() && MemInv(cfg, log, own, slots) && at + cfg.slotCount >= |own|
    requires at <= x < at + ScanLength(Unbounded, cfg, slots, at, left)
    ensures !Published(log, own, x)
    decreases left
  {
    if at < x {
      ScanWalksUnpublished(cfg, log, own, slots, at + 1, left - 1, x);
    }
  }

  /** A reader that has not finished a message is done with exactly the reservations before its head's owner. */
  lemma TurnIsOwner(cfg: Config, log: seq<Entry>, own: seq<Own>, head: nat, r: Reader)
    requires cfg.slotSize >= 6 && LogInv(cfg, log, own) && ReaderOk(cfg, log, own, head, r) && r.pc.Check?
    ensures r.head < |own| && Turn(log, own, r) == own[r.head].m
  {
    if r.asm.count > 0 {
      NextOwner(cfg, log, own, r.head - 1);
    }
  }

  lemma SkippedIsIncomplete(cfg: Config, log: seq<Entry>, own: seq<Own>, head: nat, n: nat, m: nat)
    requires cfg.slotSize >= 6 && LogInv(cfg, log, own) && n > 0 && head + n <= |own|
    requires forall x :: head <= x < head + n ==> !Published(log, own, x)
    requires own[head].m <= m < IndexAt(log, own, head + n) && m < |log|
    ensures log[m].stamped != NeedOf(cfg, log[m])
  {
    var need := NeedOf(cfg, log[m]);
    assert EntryOk(cfg, own, log[m]);
    OwnerAt(cfg, log, own, m, need - 1);
    var last := log[m].start + (need - 1);
    if own[head].m < m {
      StartsOrdered(cfg, log, own, own[head].m, m);
    }
    assert head <= last;
    var e := IndexAt(log, own, head + n);
    if head + n < |own| {
      StartsOrdered(cfg, log, own, m, e);
    }
    assert last < head + n;
    assert !Published(log, own, last);
  }

  lemma SkipAddsNothing(cfg: Config, log: seq<Entry>, own: seq<Own>, head: nat, n: nat)
    requires cfg.slotSize >= 6 && LogInv(cfg, log, own) && n > 0 && head + n <= |own|
    requires forall x :: head <= x < head + n ==> !Published(log, own, x)
    ensures own[head].m <= IndexAt(log, own, head + n) <= |log|
    ensures Complete(cfg, log, own[head].m) == Complete(cfg, log, IndexAt(log, own, head + n))
  {
    var a, b := own[head].m, IndexAt(log, own, head + n);
    if b < a {
      StartsOrdered(cfg, log, own, b, a);
      assert false;
    }
    forall m | a <= m < b
      ensures log[m].stamped != NeedOf(cfg, log[m])
    {
      SkippedIsIncomplete(cfg, log, own, head, n, m);
    }
    CompleteSkips(cfg, log, a, b);
  }

  /** After the last skipped slot a reader is at a boundary. */
  lemma LastSkipped(cfg: Config, log: seq<Entry>, own: seq<Own>, at: nat)
    requires cfg.slotSize >= 6 && LogInv(cfg, log, own) && at < |own|
    requires !Published(log, own, at) && OwnerDead(log, own, at)
    ensures Boundary(log, own, at + 1)
  {
    NextOwner(cfg, log, own, at);
  }

  lemma SettledAcross(log: seq<Entry>, own: seq<Own>, head: nat, n: nat)
    requires forall at :: 0 <= at < head ==> Settled(log, own, at)
    requires forall x :: head <= x < head + n ==> OwnerDead(log, own, x)
    ensures forall at :: 0 <= at < head + n ==> Settled(log, own, at)
  {
    forall at | 0 <= at < head + n
      ensures Settled(log, own, at)
    {
      assert at >= head ==> OwnerDead(log, own, at);
    }
  }

  lemma LandedOk(cfg: Config, log: seq<Entry>, own: seq<Own>, head: nat, r: Reader)
    requires cfg.slotSize >= 6 && r.pc == Publish(true) && r.asm == NOTHING.(id := r.asm.id)
    requires r.pos == r.head && head < r.head <= |own| && Boundary(log, own, r.head)
    requires forall at :: 0 <= at < r.head ==> Settled(log, own, at)
    requires IndexAt(log, own, r.head) <= |log| && r.delivered == Complete(cfg, log, IndexAt(log, own, r.head))
    ensures ReaderOk(cfg, log, own, head, r)
  {
  }

  lemma TimeoutOk(cfg: Config, log: seq<Entry>, own: seq<Own>, head: nat, r: Reader, n: nat)
    requires cfg.slotSize >= 6 && LogInv(cfg, log, own) && ReaderOk(cfg, log, own, head, r) && r.pc.Check?
    requires n > 0 && r.head + n <= |own|
    requires forall x :: r.head <= x < r.head + n ==> !Published(log, own, x) && OwnerDead(log, own, x)
    ensures ReaderOk(cfg, log, own, head, r.(pc := Publish(true), head := r.head + n, pos := r.pos + n,
                                             asm := NOTHING.(id := r.asm.id)))
  {
    hide LogInv, Complete, AsmOk, Settled, Boundary;
    TurnIsOwner(cfg, log, own, head, r);
    SkipAddsNothing(cfg, log, own, r.head, n);
    LastSkipped(cfg, log, own, r.head + n - 1);
    SettledAcross(log, own, r.head, n);
    LandedOk(cfg, log, own, head, r.(pc := Publish(true), head := r.head + n, pos := r.pos + n,
                                     asm := NOTHING.(id := r.asm.id)));
  }

  lemma TimeoutKeeps(cfg: Config, s: State, i: nat)
    requires Inv(cfg, s) && i in cfg.readers
    ensures var r := TimeoutStep(Unbounded, cfg, s, i); r.Some? ==> Inv(cfg, r.value)
  {
    hide BackLink, TokensInv, SenderOk, AsmOk, Complete, Turn;
    var o := TimeoutStep(Unbounded, cfg, s, i);
    if o.Some? {
      var r := s.readers[i];
      assert ReaderOk(cfg, s.log, s.own, s.heads[i], r);
      var left := Min(Sub(Unbounded, r.pc.tail, r.head), MAX_SLICE_COUNT);
      var n := ScanLength(Unbounded, cfg, s.slots, r.head, left);
      forall x | r.head <= x < r.head + n
        ensures !Published(s.log, s.own, x) && OwnerDead(s.log, s.own, x)
      {
        ScanWalksUnpublished(cfg, s.log, s.own, s.slots, r.head, left, x);
      }
      TimeoutOk(cfg, s.log, s.own, s.heads[i], r, n);
      ReaderLocal(cfg, s, i, o.value.readers[i]);
    }
  }

  /** Whatever the step, the invariant survives it. */
  lemma NextKeeps(cfg: Config, s: State, a: Action)
    requires Inv(cfg, s)
    ensures var r := Next(Unbounded, cfg, s, a); r.Some? ==> Inv(cfg, r.value)
  {
    hide Inv, LoadTailStep, LoadHeadStep, DecideStep, TryCasStep, FillSlotStep, StampSlotStep, PostSemStep, KillStep;
    hide ScribbleStep, WaitStep, LookStep, CheckStampStep, TimeoutStep, CopySlotStep, PublishHeadStep;
    match a
    case Call(msg) => if cfg.Sendable(msg) { CallKeeps(cfg, s, msg); }
    case LoadTail(c) => if c < |s.senders| { LoadTailKeeps(cfg, s, c); }
    case LoadHead(c) => if c < |s.senders| { LoadHeadKeeps(cfg, s, c); }
    case Decide(c) => if c < |s.senders| { DecideKeeps(cfg, s, c); }
    case TryCas(c, spurious) => if c < |s.senders| { TryCasKeeps(cfg, s, c, spurious); }
    case Scribble(c, id, count, data) => if c < |s.senders| { ScribbleKeeps(cfg, s, c, id, count, data); }
    case FillSlot(c) => if c < |s.senders| { FillSlotKeeps(cfg, s, c); }
    case StampSlot(c) => if c < |s.senders| { StampSlotKeeps(cfg, s, c); }
    case PostSem(c) => if c < |s.senders| { PostSemKeeps(cfg, s, c); }
    case Kill(c) => if c < |s.senders| { KillKeeps(cfg, s, c); }
    case Wait(i) => if i in cfg.readers { WaitKeeps(cfg, s, i); }
    case Look(i) => if i in cfg.readers { LookKeeps(cfg, s, i); }
    case CheckStamp(i) => if i in cfg.readers { CheckStampKeeps(cfg, s, i); }
    case Timeout(i) => if i in cfg.readers { TimeoutKeeps(cfg, s, i); }
    case CopySlot(i) => if i in cfg.readers { CopySlotKeeps(cfg, s, i); }
    case PublishHead(i) => if i in cfg.readers { PublishHeadKeeps(cfg, s, i); }
  }

  lemma {:induction false} RunKeeps(cfg: Config, tr: seq<State>, acts: seq<Action>, n: nat)
    requires Run(Unbounded, cfg, tr, acts) && cfg.Valid() && n < |tr|
    ensures Inv(cfg, tr[n])
  {
    if n == 0 {
      InvInit(cfg);
    } else {
      RunKeeps(cfg, tr, acts, n - 1);
      assert StepAt(Unbounded, cfg, tr, acts, n - 1);
      NextKeeps(cfg, tr[n - 1], acts[n - 1]);
    }
  }
}
