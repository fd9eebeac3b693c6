/**
 * Particular runs, step by step: how a ring with one reader comes to a dead end, and how a ring of more than 65536
 * slots comes to a stamp that the uint32 test mistakes.
 */
module RingRuns {
  import opened Bytes
  import opened Slicing
  import opened Options
  import opened Ring
  import opened RingInv
  import opened RingSteps
  import opened RingTheorems
  import opened RingDebt
  import opened RingWrap
  import opened RingStamps
  import opened SendRuns
  import opened RecvRuns

  // ----- runs, extended one step at a time -----

  /** A run in which no uint32 value is mistaken and no sender oversleeps. */
  ghost predicate TameRun(cfg: Config, tr: seq<State>, acts: seq<Action>) {
    && Run(Unbounded, cfg, tr, acts) && cfg.Valid()
    && (forall n :: 0 <= n < |acts| ==> Unmistaken(cfg, tr[n], acts[n]))
    && (forall n :: 0 <= n < |tr| ==> Punctual(tr[n]))
  }

  /** Some tame run ends in `s`. */
  ghost predicate Reached(cfg: Config, s: State) {
    exists tr, acts :: TameRun(cfg, tr, acts) && tr[|acts|] == s
  }

  lemma InitReached(cfg: Config)
    requires cfg.Valid()
    ensures Inv(cfg, Init(cfg)) && Reached(cfg, Init(cfg))
  {
    InvInit(cfg);
    assert TameRun(cfg, [Init(cfg)], []);
  }

  lemma ReachStep(cfg: Config, s: State, a: Action, s': State)
    requires Reached(cfg, s) && s.Shaped(cfg) && Next(Unbounded, cfg, s, a) == Some(s')
    requires Unmistaken(cfg, s, a) && Punctual(s')
    ensures Reached(cfg, s') && Inv(cfg, s')
  {
    hide Inv, Next, Unmistaken, Punctual, Init;
    var tr, acts :| TameRun(cfg, tr, acts) && tr[|acts|] == s;
    RunKeeps(cfg, tr, acts, |acts|);
    NextKeeps(cfg, s, a);
    NextShaped(cfg, s, a);
    var tr', acts' := tr + [s'], acts + [a];
    forall n | 0 <= n < |acts'|
      ensures StepAt(Unbounded, cfg, tr', acts', n) && Unmistaken(cfg, tr'[n], acts'[n])
    {
      if n < |acts| {
        assert StepAt(Unbounded, cfg, tr, acts, n);
      }
    }
    assert TameRun(cfg, tr', acts') && tr'[|acts'|] == s';
  }

  ghost predicate OthersEnded(senders: seq<Sender>, c: nat) {
    forall d :: 0 <= d < |senders| && d != c ==>
                  senders[d].pc.Returned? || senders[d].pc.Refused? || senders[d].pc.Dead?
  }

  /** Nobody but `c` is at work, or no counter is near its end. */
  ghost predicate InTime(s: State, c: nat) {
    OthersEnded(s.senders, c) || s.tail + MAX_SLICE_COUNT < U32
  }

  /** A call on its own that has loaded the current tail is in time. */
  lemma AloneIsPunctual(s: State, c: nat)
    requires OthersEnded(s.senders, c) || s.tail < U32
    requires s.tail >= U32 && c < |s.senders| ==>
               match s.senders[c].pc
               case Scan(t, _, _, _) => t == s.tail
               case Cas(t) => t == s.tail
               case _ => true
    ensures Punctual(s)
  {
  }

  // ----- one send of a message that fits a slot -----

  lemma ReachScan(cfg: Config, s: State, c: nat) returns (s': State)
    requires Inv(cfg, s) && Reached(cfg, s) && c < |s.senders| && s.senders[c].pc == Start
    requires InTime(s, c)
    requires cfg.Need(s.senders[c].msg) <= MAX_SLICE_COUNT && cfg.readers != {}
    ensures Inv(cfg, s') && Reached(cfg, s') && |s'.senders| == |s.senders| && s' == SetPc(s, c, s'.senders[c].pc)
    ensures Scanned(cfg, s', c, MAX_READER_COUNT)
  {
    hide LogInv, MemInv, HeadsInv, SenderOk, BackLink, ReaderOk, TokensInv, Reached, Punctual;
    s' := LoadTailStep(cfg, s, c).value;
    AloneIsPunctual(s', c);
    ReachStep(cfg, s, LoadTail(c), s');
    var i := 0;
    while i < MAX_READER_COUNT
      invariant i <= MAX_READER_COUNT && Inv(cfg, s') && Reached(cfg, s') && |s'.senders| == |s.senders|
      invariant s' == SetPc(s, c, s'.senders[c].pc)
      invariant Scanned(cfg, s', c, i)
    {
      var next := LoadHeadStep(Unbounded, cfg, s', c).value;
      assert next == SetPc(s, c, next.senders[c].pc);
      AloneIsPunctual(next, c);
      ReachStep(cfg, s', LoadHead(c), next);
      s' := next;
      i := i + 1;
    }
  }

  lemma ReachCall(cfg: Config, s: State, msg: Message) returns (s': State)
    requires Inv(cfg, s) && Reached(cfg, s) && InTime(s, |s.senders|) && cfg.Sendable(msg)
    ensures Inv(cfg, s') && Reached(cfg, s') && s' == s.(senders := s.senders + [Sender(msg, Start)])
  {
    hide LogInv, MemInv, HeadsInv, SenderOk, BackLink, ReaderOk, TokensInv, Reached, Punctual;
    s' := s.(senders := s.senders + [Sender(msg, Start)]);
    AloneIsPunctual(s', |s.senders|);
    ReachStep(cfg, s, Call(msg), s');
  }

  lemma ReachReserve(cfg: Config, s: State, msg: Message) returns (s': State)
    requires Inv(cfg, s) && Reached(cfg, s) && InTime(s, |s.senders|)
    requires cfg.Sendable(msg) && cfg.Need(msg) <= MAX_SLICE_COUNT && cfg.readers != {}
    requires Room(cfg, s, cfg.Need(msg))
    ensures Inv(cfg, s') && Reached(cfg, s') && Reserved(cfg, s, s', msg)
  {
    hide LogInv, MemInv, HeadsInv, SenderOk, BackLink, ReaderOk, TokensInv, Reached, Punctual;
    var c := |s.senders|;
    var s0 := ReachCall(cfg, s, msg);
    var s1 := ReachScan(cfg, s0, c);
    ScanLeavesRoom(cfg, s1, c);
    var s2 := DecideStep(Unbounded, cfg, s1, c).value;
    AloneIsPunctual(s2, c);
    ReachStep(cfg, s1, Decide(c), s2);
    assert s2.senders[c].pc == Cas(s.tail);
    s' := TryCasStep(Unbounded, cfg, s2, c, false).value;
    assert s'.senders == s.senders + [Sender(msg, Fill(|s.log|, s.tail, 0, 0))];
    AloneIsPunctual(s', c);
    ReachStep(cfg, s2, TryCas(c, false), s');
  }

  /** A call that dies right after its exchange: one more reservation, nothing written, no token. */
  ghost predicate Died(cfg: Config, s: State, s': State, msg: Message)
    requires cfg.slotSize >= 6
  {
    && s'.log == s.log + [Entry(|s.senders|, s.tail, msg, 0, 0, true)]
    && s'.tail == s.tail + cfg.Need(msg) && s'.heads == s.heads && s'.readers == s.readers && s'.tokens == s.tokens
  }

  lemma ReachDeath(cfg: Config, s: State, msg: Message) returns (s': State)
    requires Inv(cfg, s) && Reached(cfg, s) && Quiet(cfg, s)
    requires cfg.Sendable(msg) && cfg.Need(msg) <= MAX_SLICE_COUNT && cfg.readers != {}
    requires Room(cfg, s, cfg.Need(msg))
    ensures Inv(cfg, s') && Reached(cfg, s') && Died(cfg, s, s', msg) && Quiet(cfg, s')
  {
    hide LogInv, MemInv, HeadsInv, SenderOk, BackLink, ReaderOk, TokensInv, Reached, Punctual;
    var c := |s.senders|;
    var s1 := ReachReserve(cfg, s, msg);
    s' := KillStep(s1, c).value;
    assert s'.senders == s.senders + [Sender(msg, Dead)];
    AloneIsPunctual(s', c);
    ReachStep(cfg, s1, Kill(c), s');
    assert s'.log == s.log + [Entry(c, s.tail, msg, 0, 0, true)];
  }

  lemma ReachWrite(cfg: Config, s: State, c: nat, m: nat, msg: Message) returns (s': State)
    requires Inv(cfg, s) && Reached(cfg, s) && Written(cfg, s, s, c, m, msg, 0, 0) && cfg.Need(msg) == 1
    requires OthersEnded(s.senders, c) || s.tail < U32
    ensures Inv(cfg, s') && Reached(cfg, s') && Written(cfg, s, s', c, m, msg, 1, |msg.data|)
  {
    hide LogInv, MemInv, HeadsInv, SenderOk, BackLink, ReaderOk, TokensInv, Reached, Punctual, Piece, Overwrite;
    FillCarries(cfg, s, c);
    var s1 := FillSlotStep(cfg, s, c).value;
    AloneIsPunctual(s1, c);
    ReachStep(cfg, s, FillSlot(c), s1);
    s' := StampSlotStep(Unbounded, cfg, s1, c).value;
    AloneIsPunctual(s', c);
    ReachStep(cfg, s1, StampSlot(c), s');
    WrittenNext(cfg, s, s, s', c, m, msg, 0, 0);
    LoopRunsNeedTimes(cfg.slotSize, |msg.data|, 1);
  }

  lemma ReachPosts(cfg: Config, s0: State, c: nat, m: nat) returns (s': State)
    requires Inv(cfg, s0) && Reached(cfg, s0) && Posted(cfg, s0, s0, c, m, 0)
    requires OthersEnded(s0.senders, c) || s0.tail < U32
    requires c < |s0.senders| && s0.senders[c].pc == Post(m, 0)
    ensures Inv(cfg, s') && Reached(cfg, s') && Posted(cfg, s0, s', c, m, MAX_READER_COUNT)
    ensures c < |s'.senders| && s'.senders[c].pc == Returned(m)
  {
    hide LogInv, MemInv, HeadsInv, SenderOk, BackLink, ReaderOk, TokensInv, Reached, Punctual;
    s' := s0;
    var i := 0;
    while i <= MAX_READER_COUNT
      invariant i <= MAX_READER_COUNT + 1 && Inv(cfg, s') && Reached(cfg, s') && c < |s'.senders|
      invariant Posted(cfg, s0, s', c, m, Min(i, MAX_READER_COUNT))
      invariant s'.senders[c].pc == if i <= MAX_READER_COUNT then Post(m, i) else Returned(m)
    {
      PostRun(cfg, s0, s', c, m, i);
      var next := PostSemStep(cfg, s', c).value;
      AloneIsPunctual(next, c);
      ReachStep(cfg, s', PostSem(c), next);
      s' := next;
      i := i + 1;
    }
  }

  lemma ReachSend(cfg: Config, s: State, msg: Message) returns (s': State)
    requires Inv(cfg, s) && Reached(cfg, s) && InTime(s, |s.senders|)
    requires cfg.Sendable(msg) && cfg.Need(msg) == 1 && cfg.readers != {} && Room(cfg, s, 1)
    ensures Inv(cfg, s') && Reached(cfg, s') && Sent(cfg, s, s', msg)
    ensures s'.senders == s.senders + [Sender(msg, Returned(|s.log|))]
  {
    hide LogInv, MemInv, HeadsInv, SenderOk, BackLink, ReaderOk, TokensInv, Reached;
    var c, m := |s.senders|, |s.log|;
    var s1 := ReachReserve(cfg, s, msg);
    ReservedIsWritten(cfg, s, s1, msg);
    var s2 := ReachWrite(cfg, s1, c, m, msg);
    WrittenIsPosted(cfg, s1, s2, c, m, msg);
    s' := ReachPosts(cfg, s2, c, m);
    assert s'.log == s.log + [Entry(c, s.tail, msg, 1, MAX_READER_COUNT, false)];
  }

  // ----- one recv -----

  ghost predicate CanStart(cfg: Config, s: State, i: nat) {
    && Inv(cfg, s) && i in cfg.readers && s.tokens[i] > 0 && s.readers[i].head < s.tail
    && s.readers[i].pc == Idle && (AllEnded(s.senders) || s.tail < U32)
  }

  /** A recv that took its token and has looked at the tail. */
  ghost function Looking(s: State, i: nat): State
    requires i < |s.readers| && i < |s.tokens| && s.tokens[i] > 0
  {
    var r := s.readers[i];
    SetReader(s, i, r.(pc := Check(s.tail), asm := NOTHING, waits := r.waits + 1)).(
    tokens := s.tokens[i := s.tokens[i] - 1])
  }

  lemma ReadersArePunctual(s: State)
    requires AllEnded(s.senders) || s.tail < U32
    ensures Punctual(s)
  {
  }

  lemma ReachLook(cfg: Config, s: State, i: nat) returns (s': State)
    requires CanStart(cfg, s, i) && Reached(cfg, s)
    ensures Inv(cfg, s') && Reached(cfg, s') && s' == Looking(s, i) && s'.readers[i].pos == s'.readers[i].head
  {
    hide LogInv, MemInv, HeadsInv, SenderOk, BackLink, AsmOk, TokensInv, Reached, Punctual, Complete, Settled;
    var s1 := WaitStep(cfg, s, i).value;
    ReadersArePunctual(s1);
    ReachStep(cfg, s, Wait(i), s1);
    s' := LookStep(cfg, s1, i).value;
    ReadersArePunctual(s');
    ReachStep(cfg, s1, Look(i), s');
    assert ReaderOk(cfg, s.log, s.own, s.heads[i], s.readers[i]);
  }

  /** Reader `i` ended a recv one slot further on; nothing else moved but its token. */
  ghost predicate Advanced(s: State, s': State, i: nat)
    requires i < |s.readers| && i < |s.tokens| && i < |s'.readers| && i < |s'.heads|
  {
    && s'.tail == s.tail && s'.log == s.log && s'.own == s.own && s'.senders == s.senders && s'.slots == s.slots
    && s'.readers == s.readers[i := s'.readers[i]] && s'.readers[i].pc == Idle
    && s'.readers[i].head == s.readers[i].head + 1 && s.tokens[i] > 0
    && s'.tokens == s.tokens[i := s.tokens[i] - 1]
  }

  lemma OneSlotAssembly(cfg: Config, s: State, i: nat)
    requires Inv(cfg, s) && i in cfg.readers && s.readers[i].pc == Copy
    requires s.readers[i].head < |s.own| && s.own[s.readers[i].head].m < |s.log|
    requires NeedOf(cfg, s.log[s.own[s.readers[i].head].m]) == 1
    ensures var asm := Taken(cfg, s, i); asm.count == 1 == asm.done
  {
    hide Inv, Absorb;
    TookPiece(cfg, s, i);
  }

  lemma HeadIsPublishedHead(cfg: Config, s: State, i: nat)
    requires Inv(cfg, s) && i in cfg.readers && !s.readers[i].pc.Publish?
    ensures s.heads[i] == s.readers[i].head == s.readers[i].pos
  {
    hide LogInv, MemInv, HeadsInv, SenderOk, BackLink, TokensInv, AsmOk, Complete, Settled, Turn;
    assert ReaderOk(cfg, s.log, s.own, s.heads[i], s.readers[i]);
  }

  /** The message at the head is published and fits a slot. */
  lemma ReachTake(cfg: Config, s: State, i: nat) returns (s': State)
    requires CanStart(cfg, s, i) && Reached(cfg, s) && Published(s.log, s.own, s.readers[i].head)
    requires s.own[s.readers[i].head].m < |s.log| && NeedOf(cfg, s.log[s.own[s.readers[i].head].m]) == 1
    ensures Inv(cfg, s') && Reached(cfg, s') && s'.Shaped(cfg) && Advanced(s, s', i)
  {
    hide LogInv, MemInv, HeadsInv, SenderOk, BackLink, ReaderOk, TokensInv, Reached, Punctual, Published, Tells;
    hide Absorb, NeedOf;
    var s1 := ReachLook(cfg, s, i);
    SeesPublishedNow(cfg, s1, i);
    HeadLag(cfg, s1, i);
    HeadIsPublishedHead(cfg, s1, i);
    PublishedTells(cfg, s1.log, s1.own, s1.slots, s1.readers[i].head);
    var s2 := CheckStampStep(Unbounded, cfg, s1, i).value;
    ReadersArePunctual(s2);
    ReachStep(cfg, s1, CheckStamp(i), s2);
    OneSlotAssembly(cfg, s2, i);
    var s3 := CopySlotStep(Unbounded, cfg, s2, i).value;
    ReadersArePunctual(s3);
    ReachStep(cfg, s2, CopySlot(i), s3);
    s' := PublishHeadStep(cfg, s3, i).value;
    ReadersArePunctual(s');
    ReachStep(cfg, s3, PublishHead(i), s');
  }

  /** The slot at the head is abandoned, and the one behind it is published or not reserved yet. */
  ghost predicate OneGap(s: State, x: nat) {
    && OwnerDead(s.log, s.own, x) && !Published(s.log, s.own, x)
    && (x + 1 < s.tail ==> Published(s.log, s.own, x + 1))
  }

  lemma GapStalls(cfg: Config, s: State, i: nat)
    requires Inv(cfg, s) && i in cfg.readers && s.readers[i].pc == Check(s.tail) && s.readers[i].head < s.tail
    requires OneGap(s, s.readers[i].head)
    ensures Stalled(Unbounded, cfg, s, i) == 1
    ensures s.slots[s.readers[i].head % cfg.slotCount].stamp != s.readers[i].head + 1
  {
    hide LogInv, SenderOk, BackLink, TokensInv, ReaderOk, Carries, OwnerDead, Settled;
    var h := s.readers[i].head;
    HeadIsPublishedHead(cfg, s, i);
    SeesPublishedNow(cfg, s, i);
    var left := Min(s.tail - h, MAX_SLICE_COUNT);
    assert ScanLength(Unbounded, cfg, s.slots, h, left) == 1 + ScanLength(Unbounded, cfg, s.slots, h + 1, left - 1);
    if h + 1 < s.tail {
      assert Intact(cfg, s.log, s.own, s.slots, h + 1);
    }
  }

  lemma ReachSkip(cfg: Config, s: State, i: nat) returns (s': State)
    requires CanStart(cfg, s, i) && Reached(cfg, s) && OneGap(s, s.readers[i].head)
    requires Tells(s.slots, s.readers[i].head)
    ensures Inv(cfg, s') && Reached(cfg, s') && s'.Shaped(cfg) && Advanced(s, s', i)
  {
    hide LogInv, MemInv, HeadsInv, SenderOk, BackLink, ReaderOk, TokensInv, Reached, Punctual, Published, Tells;
    hide Stalled, ScanLength, OwnerDead;
    var s1 := ReachLook(cfg, s, i);
    GapStalls(cfg, s1, i);
    var s2 := TimeoutStep(Unbounded, cfg, s1, i).value;
    ReadersArePunctual(s2);
    assert ScanTells(cfg, s1, i);
    ReachStep(cfg, s1, Timeout(i), s2);
    s' := PublishHeadStep(cfg, s2, i).value;
    ReadersArePunctual(s');
    ReachStep(cfg, s2, PublishHead(i), s');
  }

  // ----- a channel on which every `d`-th sender dies -----

  const PING: Message := Message(0, [0])

  /** One reader, slots of 64 bytes. */
  function Lane(slotCount: nat): Config {
    Config(slotCount, 64, {0})
  }

  predicate Doomed(d: nat, x: nat)
    requires d > 0
  {
    x % d == d - 1
  }

  /** Message `x` is sequence number `x`, stamped unless its sender was doomed. */
  ghost predicate LaneEntry(d: nat, e: Entry, x: nat)
    requires d > 0
  {
    e.start == x && e.msg == PING && e.dead == Doomed(d, x) && e.stamped == if Doomed(d, x) then 0 else 1
  }

  /**
   * Between two calls: `t` messages of one slot were reserved, each `d`-th by a sender that died at once, and the
   * reader has ended `h` recvs, each one slot on.
   */
  ghost predicate Stage(slotCount: nat, d: nat, s: State, h: nat, t: nat)
    requires d > 0 && slotCount > 0
  {
    var cfg := Lane(slotCount);
    && Inv(cfg, s) && Quiet(cfg, s) && Reached(cfg, s)
    && s.tail == t == |s.log| && s.readers[0].head == h && s.tokens[0] + h + t / d == t
    && forall x :: 0 <= x < t ==> LaneEntry(d, s.log[x], x)
  }

  lemma LaneNeeds(slotCount: nat)
    requires slotCount > 0
    ensures Lane(slotCount).Valid() && Lane(slotCount).Need(PING) == 1 && Lane(slotCount).Sendable(PING)
  {
  }

  lemma NextQuotient(d: nat, t: nat)
    requires d > 0
    ensures (t + 1) / d == t / d + (if Doomed(d, t) then 1 else 0)
  {
    var a, b := t / d, (t + 1) / d;
    assert t == a * d + t % d && t + 1 == b * d + (t + 1) % d;
    assert (a + 1) * d == a * d + d && (a + 2) * d == a * d + 2 * d;
    if b >= a + 2 {
      MulMonotone(a + 2, b, d);
    } else if b < a {
      assert (b + 1) * d == b * d + d;
      MulMonotone(b + 1, a, d);
    }
  }

  lemma FirstStage(slotCount: nat, d: nat)
    requires d > 0 && slotCount > 0
    ensures Stage(slotCount, d, Init(Lane(slotCount)), 0, 0)
  {
    hide Inv, Reached;
    InitReached(Lane(slotCount));
  }

  lemma StageBounds(slotCount: nat, d: nat, s: State, h: nat, t: nat)
    requires d > 0 && slotCount > 0 && Stage(slotCount, d, s, h, t)
    ensures s.Shaped(Lane(slotCount)) && s.heads[0] == h <= t < h + slotCount && |s.own| == t
  {
    hide LogInv, MemInv, SenderOk, BackLink, TokensInv, AsmOk, Complete, Settled, Turn, Reached, LaneEntry;
    var cfg := Lane(slotCount);
    assert 0 in cfg.readers;
    assert ReaderOk(cfg, s.log, s.own, s.heads[0], s.readers[0]);
  }

  /** Sequence number `x` is message `x`: published, or abandoned if its sender was doomed. */
  lemma StageOwner(slotCount: nat, d: nat, s: State, h: nat, t: nat, x: nat)
    requires d > 0 && slotCount > 0 && Stage(slotCount, d, s, h, t) && x < t
    ensures x < |s.own| && s.own[x].m == x && NeedOf(Lane(slotCount), s.log[x]) == 1
    ensures Published(s.log, s.own, x) <==> !Doomed(d, x)
    ensures OwnerDead(s.log, s.own, x) <==> Doomed(d, x)
  {
    hide MemInv, HeadsInv, SenderOk, BackLink, TokensInv, ReaderOk, Reached, Doomed;
    StageBounds(slotCount, d, s, h, t);
    LaneNeeds(slotCount);
    assert LaneEntry(d, s.log[x], x);
    var m := s.own[x].m;
    assert LaneEntry(d, s.log[m], m);
  }

  /** One more call, which returns or dies as its number says. */
  lemma StageSend(slotCount: nat, d: nat, s: State, h: nat, t: nat) returns (s': State)
    requires d > 0 && slotCount > 0 && Stage(slotCount, d, s, h, t) && t + 1 < h + slotCount
    ensures Stage(slotCount, d, s', h, t + 1)
  {
    hide Inv, Reached;
    var cfg := Lane(slotCount);
    LaneNeeds(slotCount);
    StageBounds(slotCount, d, s, h, t);
    NextQuotient(d, t);
    if Doomed(d, t) {
      s' := ReachDeath(cfg, s, PING);
    } else {
      s' := ReachSend(cfg, s, PING);
    }
    forall x | 0 <= x < t + 1
      ensures LaneEntry(d, s'.log[x], x)
    {
      assert x < t ==> LaneEntry(d, s.log[x], x);
    }
  }

  lemma NeighbourLives(d: nat, h: nat)
    requires d > 1 && Doomed(d, h)
    ensures !Doomed(d, h + 1)
  {
    NextQuotient(d, h);
    assert h == h / d * d + h % d && h + 1 == (h + 1) / d * d + (h + 1) % d;
    assert (h / d + 1) * d == h / d * d + d;
  }

  /** One more recv, which takes the next message or gives up on it. */
  lemma StageRecv(slotCount: nat, d: nat, s: State, h: nat, t: nat) returns (s': State)
    requires d > 1 && slotCount > 0 && Stage(slotCount, d, s, h, t) && t / d + h < t
    requires Doomed(d, h) ==> Tells(s.slots, h)
    ensures Stage(slotCount, d, s', h + 1, t)
  {
    hide Inv, Reached, Tells, Published, OwnerDead;
    var cfg := Lane(slotCount);
    StageBounds(slotCount, d, s, h, t);
    StageOwner(slotCount, d, s, h, t, h);
    if Doomed(d, h) {
      if h + 1 < t {
        NeighbourLives(d, h);
        StageOwner(slotCount, d, s, h, t, h + 1);
      }
      s' := ReachSkip(cfg, s, 0);
    } else {
      s' := ReachTake(cfg, s, 0);
    }
  }

  // ----- a refusal without need -----

  /** On a lane with room, `c` is between its load of the tail and the reader, who is past that tail by now. */
  lemma OvertakenIsRefused(s: State, c: nat) returns (s': State)
    requires Inv(Lane(64), s) && Reached(Lane(64), s) && s.tail < 1000
    requires c < |s.senders| && s.senders[c] == Sender(PING, Scan(0, 0, 0, 0)) && s.heads[0] == 1
    ensures Reached(Lane(64), s') && s' == SetPc(s, c, Refused)
  {
    hide LogInv, MemInv, HeadsInv, SenderOk, BackLink, ReaderOk, TokensInv, Reached, Punctual;
    var cfg := Lane(64);
    s' := LoadHeadStep(Unbounded, cfg, s, c).value;
    AloneIsPunctual(s', c);
    ReachStep(cfg, s, LoadHead(c), s');
    assert s' == SetPc(s, c, Scan(0, 1, 1, U32 - 1));
    var i := 1;
    while i < MAX_READER_COUNT
      invariant 1 <= i <= MAX_READER_COUNT && Inv(cfg, s') && Reached(cfg, s')
      invariant s' == SetPc(s, c, Scan(0, i, 1, U32 - 1))
    {
      var next := LoadHeadStep(Unbounded, cfg, s', c).value;
      assert next == SetPc(s, c, Scan(0, i + 1, 1, U32 - 1));
      AloneIsPunctual(next, c);
      ReachStep(cfg, s', LoadHead(c), next);
      s' := next;
      i := i + 1;
    }
    LaneNeeds(64);
    var last := DecideStep(Unbounded, cfg, s', c).value;
    assert last == SetPc(s, c, Refused);
    AloneIsPunctual(last, c);
    ReachStep(cfg, s', Decide(c), last);
    s' := last;
  }

  lemma OwnerOfFirst(cfg: Config, s: State)
    requires Inv(cfg, s) && |s.log| == 1 && s.log[0].start == 0 && s.log[0].stamped == NeedOf(cfg, s.log[0])
    ensures 0 < |s.own| && s.own[0].m == 0 && Published(s.log, s.own, 0)
  {
    hide MemInv, HeadsInv, SenderOk, BackLink, ReaderOk, TokensInv;
    assert EntryOk(cfg, s.own, s.log[0]);
    OwnerAt(cfg, s.log, s.own, 0, 0);
  }

  /** A first message on a lane, with another call waiting in the middle of its attempt. */
  lemma FirstPasses(s: State) returns (s': State)
    requires Inv(Lane(64), s) && Reached(Lane(64), s)
    requires s.senders == [Sender(PING, Scan(0, 0, 0, 0))] && s.log == [] && s.tail == 0
    requires s.readers[0].pc == Idle && s.readers[0].head == 0 && s.heads[0] == 0 && s.tokens[0] == 0
    ensures Inv(Lane(64), s') && Reached(Lane(64), s') && s'.Shaped(Lane(64))
    ensures s'.tail == s'.heads[0] == s'.readers[0].head == 1 && s'.readers[0].pc == Idle
    ensures 0 < |s'.senders| && s'.senders[0] == Sender(PING, Scan(0, 0, 0, 0))
  {
    hide LogInv, MemInv, HeadsInv, SenderOk, BackLink, ReaderOk, TokensInv, Reached;
    var cfg := Lane(64);
    LaneNeeds(64);
    var s1 := ReachSend(cfg, s, PING);
    OwnerOfFirst(cfg, s1);
    s' := ReachTake(cfg, s1, 0);
    HeadIsPublishedHead(cfg, s', 0);
  }

  /**
   * A send can be refused on an empty ring: its tail was loaded, then another message went through, and the reader's
   * head, now past that tail, reads as a backlog of 2^32 - 1.
   */
  lemma RefusedOnEmptyRing() returns (s: State)
    ensures Reached(Lane(64), s) && 0 < |s.senders| && s.senders[0] == Sender(PING, Refused)
    ensures Lane(64).Need(PING) == 1 && s.Shaped(Lane(64)) && s.tail == s.heads[0]
  {
    hide Inv, Reached, Punctual;
    var cfg := Lane(64);
    LaneNeeds(64);
    InitReached(cfg);
    var s1 := ReachCall(cfg, Init(cfg), PING);
    var s2 := LoadTailStep(cfg, s1, 0).value;
    AloneIsPunctual(s2, 0);
    ReachStep(cfg, s1, LoadTail(0), s2);
    var s3 := FirstPasses(s2);
    s := OvertakenIsRefused(s3, 0);
  }

  // ----- the dead end is reached -----

  lemma ReachedTells(cfg: Config, s: State, i: nat)
    requires Reached(cfg, s) && i in cfg.readers && cfg.slotCount <= 0x1_0000
    ensures Readable(s, i)
  {
    hide Readable, Next, Init, Unmistaken, Punctual;
    var tr, acts :| TameRun(cfg, tr, acts) && tr[|acts|] == s;
    StampsAlwaysTell(cfg, tr, acts, |acts|, i);
  }

  lemma FewerLaps(d: nat, t: nat, k: nat)
    requires d > 0
    ensures t < d * k ==> t / d < k
    ensures t == d * k ==> t / d == k
  {
    var a := t / d;
    assert t == a * d + t % d && d * k == k * d;
    assert (k + 1) * d == k * d + d;
    if a > k {
      MulMonotone(k + 1, a, d);
    } else {
      MulMonotone(a, k, d);
      if a < k {
        MulMonotone(a + 1, k, d);
        assert (a + 1) * d == a * d + d;
      }
    }
  }

  lemma HeadTells(slotCount: nat, d: nat, s: State, h: nat, t: nat)
    requires 0 < slotCount <= 0x1_0000 && d > 0 && Stage(slotCount, d, s, h, t) && h < t
    ensures |s.slots| > 0 && Tells(s.slots, h)
  {
    hide Inv, Reached, Tells, LaneEntry;
    ReachedTells(Lane(slotCount), s, 0);
  }

  /** No token is left and no slot free. */
  lemma FullStage(slotCount: nat, d: nat, s: State, h: nat, t: nat)
    requires slotCount > 0 && d > 0 && Stage(slotCount, d, s, h, t)
    requires h + t / d == t && t / d == slotCount - 1
    ensures Reached(Lane(slotCount), s) && DeadEnd(Lane(slotCount), s, 0) && |s.log| == t
    ensures forall x :: 0 <= x < t ==> LaneEntry(d, s.log[x], x)
  {
    hide Inv, Reached, LaneEntry;
    StageBounds(slotCount, d, s, h, t);
  }

  /**
   * If every `d`-th sender dies right after its exchange, the ring comes to a dead end with its `d * (slotCount - 1)`-th
   * message, although the reader never stops receiving.
   */
  lemma DeathsLockTheRing(slotCount: nat, d: nat) returns (s: State)
    requires 0 < slotCount <= 0x1_0000 && d > 0
    ensures Reached(Lane(slotCount), s) && DeadEnd(Lane(slotCount), s, 0) && |s.log| == d * (slotCount - 1)
    ensures forall x :: 0 <= x < |s.log| ==> LaneEntry(d, s.log[x], x)
  {
    hide Inv, Reached, Stage, LaneEntry, DeadEnd, Readable;
    var end := d * (slotCount - 1);
    var h, t := 0, 0;
    s := Init(Lane(slotCount));
    FirstStage(slotCount, d);
    assert 0 / d == 0;
    while t < end || h + t / d < t
      invariant t <= end && h + t / d <= t && Stage(slotCount, d, s, h, t)
      decreases end - t, t - h
    {
      StageBounds(slotCount, d, s, h, t);
      if h + t / d < t {
        HeadTells(slotCount, d, s, h, t);
        s := StageRecv(slotCount, d, s, h, t);
        h := h + 1;
      } else {
        FewerLaps(d, t, slotCount - 1);
        NextQuotient(d, t);
        s := StageSend(slotCount, d, s, h, t);
        t := t + 1;
      }
    }
    FewerLaps(d, t, slotCount - 1);
    FullStage(slotCount, d, s, h, t);
  }

  // ----- the mistaken stamp is reached -----

  /** A slot whose every sender was doomed still has the stamp it was created with. */
  lemma NeverStamped(slotCount: nat, s: State, h: nat, t: nat)
    requires slotCount > 0 && Stage(slotCount, slotCount, s, h, t)
    ensures |s.slots| == slotCount && s.slots[slotCount - 1].stamp == 0
  {
    hide LogInv, HeadsInv, SenderOk, BackLink, TokensInv, ReaderOk, Reached;
    StageBounds(slotCount, slotCount, s, h, t);
    var stamp := s.slots[slotCount - 1].stamp;
    if stamp != 0 {
      assert Published(s.log, s.own, stamp - 1);
      StageOwner(slotCount, slotCount, s, h, t, stamp - 1);
    }
  }

  lemma RoomInLargeRing(slotCount: nat, t: nat)
    requires PowerOfTwo(slotCount) && slotCount > 0x1_0000 && t < U32 + slotCount
    ensures t / slotCount + 1 < slotCount
  {
    assert slotCount != 0x1_0001;
    MulMonotone(0x1_0000, slotCount - 2, slotCount);
    assert (slotCount - 2) * slotCount + slotCount == slotCount * (slotCount - 1);
    FewerLaps(slotCount, t, slotCount - 1);
  }

  lemma LastBeforeTheWrap(slotCount: nat)
    requires PowerOfTwo(slotCount)
    ensures Doomed(slotCount, U32 - 1)
  {
    NextQuotient(slotCount, U32 - 1);
    assert U32 == U32 / slotCount * slotCount;
    assert U32 - 1 == (U32 - 1) / slotCount * slotCount + (U32 - 1) % slotCount;
    assert (U32 / slotCount - 1) * slotCount == U32 - slotCount;
  }

  /**
   * In a ring of more than 65536 slots in which the senders of one physical slot always die, the reader gets to
   * sequence number 2^32 - 1 and finds there the stamp 0 of a slot that nobody ever published.
   */
  lemma LargeRingMeetsZero(slotCount: nat) returns (s: State)
    requires PowerOfTwo(slotCount) && slotCount > 0x1_0000
    ensures Inv(Lane(slotCount), s) && Reached(Lane(slotCount), s) && s.readers[0].pc.Check?
    ensures s.readers[0].head == U32 - 1 && !Published(s.log, s.own, U32 - 1)
    ensures |s.slots| == slotCount && s.slots[(U32 - 1) % slotCount].stamp == 0
  {
    hide Inv, Reached, Published, OwnerDead, LaneEntry;
    var h, t := 0, 0;
    s := Init(Lane(slotCount));
    FirstStage(slotCount, slotCount);
    assert 0 / slotCount == 0;
    while h < U32 - 1 || h + t / slotCount == t
      invariant h <= U32 - 1 && h + t / slotCount <= t && Stage(slotCount, slotCount, s, h, t)
      decreases U32 - h, h + slotCount - t
    {
      StageBounds(slotCount, slotCount, s, h, t);
      if h + t / slotCount < t {
        NeverStamped(slotCount, s, h, t);
        s := StageRecv(slotCount, slotCount, s, h, t);
        h := h + 1;
      } else {
        RoomInLargeRing(slotCount, t);
        NextQuotient(slotCount, t);
        s := StageSend(slotCount, slotCount, s, h, t);
        t := t + 1;
      }
    }
    StageBounds(slotCount, slotCount, s, h, t);
    NeverStamped(slotCount, s, h, t);
    LastBeforeTheWrap(slotCount);
    StageOwner(slotCount, slotCount, s, h, t, h);
    s := ReachLook(Lane(slotCount), s, 0);
  }
}
