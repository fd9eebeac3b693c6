/** One send call on a quiet ring, as a run of the transition system. */
module SendRuns {
  import opened Bytes
  import opened Slicing
  import opened Options
  import opened Ring
  import opened RingInv
  import opened RingSteps

  /** `slow` is a head with the largest backlog of the masked readers, or the tail if nobody lags. */
  ghost predicate Slowest(heads: seq<nat>, mask: set<nat>, tail: nat, slow: nat)
    requires |heads| == MAX_READER_COUNT && forall r :: r in mask ==> r < MAX_READER_COUNT
  {
    && (forall r :: r in mask ==> Sub(Wrap32, tail, heads[r]) <= Sub(Wrap32, tail, slow))
    && (slow == tail || exists r :: r in mask && heads[r] == slow)
  }

  ghost predicate AllEnded(senders: seq<Sender>) {
    forall c :: 0 <= c < |senders| ==> senders[c].pc.Returned? || senders[c].pc.Refused? || senders[c].pc.Dead?
  }

  /** A quiet ring: every call has returned, been refused or died, and no recv is under way. */
  ghost predicate Quiet(cfg: Config, s: State)
    requires s.Shaped(cfg)
  {
    && AllEnded(s.senders)
    && (forall i :: i in cfg.readers ==> s.readers[i].pc == Idle)
  }

  /** Admission as the source promises it: the largest true backlog leaves room for `need` slots. */
  ghost predicate Room(cfg: Config, s: State, need: nat)
    requires s.Shaped(cfg)
  {
    forall r :: r in cfg.readers ==> s.tail - s.heads[r] + need <= cfg.slotCount - 1
  }

  /** `c` has looked at the heads of the readers below `i`; nothing else has changed. */
  ghost predicate Scanned(cfg: Config, s: State, c: nat, i: nat)
    requires s.Shaped(cfg) && c < |s.senders|
  {
    match s.senders[c].pc
    case Scan(t, j, slow, maxUsed) =>
      && t == s.tail && j == i <= MAX_READER_COUNT && maxUsed == Sub(Unbounded, t, slow)
      && (maxUsed == 0 || exists r :: r in cfg.readers && r < i && s.heads[r] == slow)
    case _ => false
  }

  lemma ScanAll(cfg: Config, s: State, c: nat) returns (s': State)
    requires Inv(cfg, s) && c < |s.senders| && s.senders[c].pc == Start
    requires cfg.Need(s.senders[c].msg) <= MAX_SLICE_COUNT && cfg.readers != {}
    ensures Inv(cfg, s') && |s'.senders| == |s.senders| && s' == SetPc(s, c, s'.senders[c].pc)
    ensures Scanned(cfg, s', c, MAX_READER_COUNT)
  {
    hide LogInv, MemInv, HeadsInv, SenderOk, BackLink, ReaderOk, TokensInv;
    LoadTailKeeps(cfg, s, c);
    s' := LoadTailStep(cfg, s, c).value;
    var i := 0;
    while i < MAX_READER_COUNT
      invariant i <= MAX_READER_COUNT && Inv(cfg, s') && |s'.senders| == |s.senders|
      invariant s' == SetPc(s, c, s'.senders[c].pc)
      invariant Scanned(cfg, s', c, i)
    {
      LoadHeadKeeps(cfg, s', c);
      var next := LoadHeadStep(Unbounded, cfg, s', c).value;
      assert next == SetPc(s, c, next.senders[c].pc);
      s' := next;
      i := i + 1;
    }
  }

  /** A new call has reserved its range and is about to write the first slot; nothing else moved. */
  ghost predicate Reserved(cfg: Config, s: State, s': State, msg: Message)
    requires cfg.slotSize >= 6
  {
    && s'.senders == s.senders + [Sender(msg, Fill(|s.log|, s.tail, 0, 0))]
    && s'.tail == s.tail + cfg.Need(msg)
    && s'.heads == s.heads && s'.tokens == s.tokens && s'.readers == s.readers
    && s'.log == s.log + [Entry(|s.senders|, s.tail, msg, 0, 0, false)]
  }

  lemma ScanLeavesRoom(cfg: Config, s: State, c: nat)
    requires Inv(cfg, s) && c < |s.senders| && Scanned(cfg, s, c, MAX_READER_COUNT)
    requires Room(cfg, s, cfg.Need(s.senders[c].msg)) && cfg.readers != {}
    ensures var r := DecideStep(Unbounded, cfg, s, c); r.Some? && r.value == SetPc(s, c, Cas(s.tail))
  {
    hide LogInv, MemInv, SenderOk, BackLink, ReaderOk, TokensInv;
    NeedBounds(cfg.slotSize, |s.senders[c].msg.data|);
    var x :| x in cfg.readers;
    assert s.tail - s.heads[x] >= 0;
  }

  /** A call that finds room gets its reservation. */
  lemma ReserveRun(cfg: Config, s: State, msg: Message) returns (s': State)
    requires Inv(cfg, s) && cfg.Sendable(msg) && cfg.Need(msg) <= MAX_SLICE_COUNT && cfg.readers != {}
    requires Room(cfg, s, cfg.Need(msg))
    ensures Inv(cfg, s') && Reserved(cfg, s, s', msg) && s'.slots == s.slots
  {
    hide LogInv, MemInv, HeadsInv, SenderOk, BackLink, ReaderOk, TokensInv;
    var c := |s.senders|;
    CallKeeps(cfg, s, msg);
    var s0 := s.(senders := s.senders + [Sender(msg, Start)]);
    var s1 := ScanAll(cfg, s0, c);
    ScanLeavesRoom(cfg, s1, c);
    DecideKeeps(cfg, s1, c);
    var s2 := DecideStep(Unbounded, cfg, s1, c).value;
    assert s2.senders[c].pc == Cas(s.tail);
    TryCasKeeps(cfg, s2, c, false);
    s' := TryCasStep(Unbounded, cfg, s2, c, false).value;
    assert s'.senders == s.senders + [Sender(msg, Fill(|s.log|, s.tail, 0, 0))];
  }

  /** The two steps of one pass of the write loop. */
  ghost function OneSlot(cfg: Config, s: State, c: nat): Option<State>
    requires s.Shaped(cfg) && c < |s.senders|
  {
    var r := FillSlotStep(cfg, s, c);
    if r.Some? && r.value.Shaped(cfg) && c < |r.value.senders| then StampSlotStep(Unbounded, cfg, r.value, c) else None
  }

  /** Length, id and payload written one after the other are the first piece. */
  lemma FirstWrite(slotSize: nat, msg: Message, was: seq<byte>, idx: nat)
    requires |was| == slotSize >= 6 && 2 + |msg.data| < U32 && idx <= |msg.data|
    ensures var n := Min(|msg.data|, slotSize - 6);
            var d := EncodeU32(2 + |msg.data|) + was[4..];
            var e := d[..4] + EncodeU16(msg.id) + d[6..];
            e[..6] + msg.data[..n] + e[6 + n..] == Overwrite(was, Piece(slotSize, msg, true, idx))
  {
    hide EncodeU32, EncodeU16;
    var n := Min(|msg.data|, slotSize - 6);
    var d := EncodeU32(2 + |msg.data|) + was[4..];
    var e := d[..4] + EncodeU16(msg.id) + d[6..];
    assert d[..4] == EncodeU32(2 + |msg.data|) && d[6..] == was[6..];
    assert e[..6] == Header(msg);
    assert e[6 + n..] == was[6 + n..];
  }

  lemma NextWrite(slotSize: nat, msg: Message, was: seq<byte>, idx: nat)
    requires |was| == slotSize >= 6 && idx <= |msg.data|
    ensures var n := Min(|msg.data| - idx, slotSize);
            msg.data[idx..idx + n] + was[n..] == Overwrite(was, Piece(slotSize, msg, false, idx))
  {
  }

  /**
   * Since `s0`, call `c` has written and stamped the first `k` slots of its reservation `m`, and nothing else moved.
   */
  ghost predicate Written(cfg: Config, s0: State, s: State, c: nat, m: nat, msg: Message, k: nat, idx: nat)
    requires cfg.slotSize >= 6
  {
    && c < |s0.senders| == |s.senders| && m < |s0.log| == |s.log|
    && s.senders == s0.senders[c := s.senders[c]]
    && s.log == s0.log[m := s0.log[m].(stamped := k)]
    && idx == Offset(cfg.slotSize, |msg.data|, k)
    && s.senders[c] == Sender(msg, if k < cfg.Need(msg) then Fill(m, s0.log[m].start + k, k, idx) else Post(m, 0))
    && s.heads == s0.heads && s.tokens == s0.tokens && s.readers == s0.readers && s.tail == s0.tail
  }

  lemma WrittenStart(cfg: Config, s: State, c: nat, m: nat, msg: Message)
    requires cfg.slotSize >= 6 && Written(cfg, s, s, c, m, msg, 0, 0)
    ensures c < |s.senders| && m < |s.log| && Offset(cfg.slotSize, |msg.data|, 0) == 0
  {
  }

  lemma WrittenAt(cfg: Config, s0: State, s: State, c: nat, m: nat, msg: Message, k: nat, idx: nat)
    requires cfg.slotSize >= 6 && Written(cfg, s0, s, c, m, msg, k, idx) && k < cfg.Need(msg)
    ensures m < |s0.log| && c < |s.senders| && s.senders[c] == Sender(msg, Fill(m, s0.log[m].start + k, k, idx))
  {
  }

  lemma WrittenNext(cfg: Config, s0: State, s: State, s': State, c: nat, m: nat, msg: Message, k: nat, idx: nat)
    requires cfg.slotSize >= 6 && Written(cfg, s0, s, c, m, msg, k, idx) && k < cfg.Need(msg) && s.Shaped(cfg)
    requires OneSlot(cfg, s, c) == Some(s')
    ensures var idx' := idx + Copied(cfg.slotSize, |msg.data|, k == 0, idx);
            Written(cfg, s0, s', c, m, msg, k + 1, idx') && idx' == Offset(cfg.slotSize, |msg.data|, k + 1)
  {
    hide Piece, Overwrite;
    LoopRunsNeedTimes(cfg.slotSize, |msg.data|, k + 1);
  }

  lemma OneSlotRun(cfg: Config, s: State, c: nat) returns (s': State)
    requires Inv(cfg, s) && c < |s.senders| && s.senders[c].pc.Fill?
    ensures OneSlot(cfg, s, c) == Some(s') && Inv(cfg, s') && s'.tail == s.tail
  {
    hide LogInv, MemInv, HeadsInv, SenderOk, BackLink, ReaderOk, TokensInv, Piece, Overwrite;
    FillCarries(cfg, s, c);
    FillSlotKeeps(cfg, s, c);
    var s1 := FillSlotStep(cfg, s, c).value;
    StampSlotKeeps(cfg, s1, c);
    s' := StampSlotStep(Unbounded, cfg, s1, c).value;
  }

  /** Since `s0`, call `c` has posted the readers below `i`, and nothing else moved. */
  ghost predicate Posted(cfg: Config, s0: State, s: State, c: nat, m: nat, i: nat)
    requires s0.Shaped(cfg) && s.Shaped(cfg)
  {
    && c < |s0.senders| == |s.senders| && m < |s0.log| == |s.log|
    && s.senders == s0.senders[c := s.senders[c]] && s.senders[c].msg == s0.senders[c].msg
    && s.log == s0.log[m := s0.log[m].(posted := i)]
    && (forall r :: 0 <= r < MAX_READER_COUNT ==>
          s.tokens[r] == s0.tokens[r] + (if r in cfg.readers && r < i then 1 else 0))
    && s.heads == s0.heads && s.readers == s0.readers && s.tail == s0.tail && s.slots == s0.slots && s.own == s0.own
  }

  lemma PostedAt(cfg: Config, s0: State, s: State, c: nat, m: nat, i: nat)
    requires s0.Shaped(cfg) && s.Shaped(cfg) && Posted(cfg, s0, s, c, m, i)
    ensures c < |s.senders| && m < |s.log|
  {
  }

  lemma PostRun(cfg: Config, s0: State, s: State, c: nat, m: nat, i: nat)
    requires s0.Shaped(cfg) && Inv(cfg, s) && Posted(cfg, s0, s, c, m, i)
    requires c < |s.senders| && s.senders[c].pc == Post(m, i) && i <= MAX_READER_COUNT
    ensures var r := PostSemStep(cfg, s, c);
            && r.Some? && Inv(cfg, r.value) && r.value.Shaped(cfg) && |r.value.senders| == |s.senders|
            && r.value.senders[c].pc == (if i < MAX_READER_COUNT then Post(m, i + 1) else Returned(m))
            && Posted(cfg, s0, r.value, c, m, if i < MAX_READER_COUNT then i + 1 else i)
  {
    hide LogInv, MemInv, HeadsInv, SenderOk, BackLink, ReaderOk, TokensInv;
    PostSemKeeps(cfg, s, c);
  }

  /** What send() checks before and in its loop, in terms of the true backlogs. */
  ghost predicate Admitted(cfg: Config, canSend: bool, s: State, msg: Message)
    requires s.Shaped(cfg)
  {
    canSend && |msg.data| > 0 && cfg.readers != {} && cfg.Need(msg) <= MAX_SLICE_COUNT && Room(cfg, s, cfg.Need(msg))
  }

  /** A send that succeeded: one more reservation, fully published, one token for every reader, nothing else. */
  ghost predicate Sent(cfg: Config, s: State, s': State, msg: Message)
    requires s.Shaped(cfg) && s'.Shaped(cfg)
  {
    && s'.log == s.log + [Entry(|s.senders|, s.tail, msg, cfg.Need(msg), MAX_READER_COUNT, false)]
    && s'.tail == s.tail + cfg.Need(msg) && s'.heads == s.heads && s'.readers == s.readers
    && (forall r :: 0 <= r < MAX_READER_COUNT ==> s'.tokens[r] == s.tokens[r] + (if r in cfg.readers then 1 else 0))
  }

  lemma ReservedIsWritten(cfg: Config, s0: State, s1: State, msg: Message)
    requires cfg.slotSize >= 6 && Reserved(cfg, s0, s1, msg)
    ensures Written(cfg, s1, s1, |s0.senders|, |s0.log|, msg, 0, 0)
    ensures |s0.log| < |s1.log| && s1.log[|s0.log|].start == s0.tail
  {
    NeedBounds(cfg.slotSize, |msg.data|);
    var m := |s0.log|;
    assert s1.log[m].(stamped := 0) == s1.log[m];
  }

  lemma WrittenIsPosted(cfg: Config, s1: State, s2: State, c: nat, m: nat, msg: Message)
    requires cfg.slotSize >= 6 && Inv(cfg, s2) && Written(cfg, s1, s2, c, m, msg, cfg.Need(msg), |msg.data|)
    ensures s2.Shaped(cfg) && Posted(cfg, s2, s2, c, m, 0) && s2.senders[c].pc == Post(m, 0)
  {
    hide LogInv, MemInv, HeadsInv, BackLink, ReaderOk, TokensInv;
    assert SenderOk(cfg, s2.log, s2.own, s2.slots, s2.heads, c, s2.senders[c]);
    assert s2.log[m].(posted := 0) == s2.log[m];
  }
}
