/** The ring with uint32 counters is, step for step, the ring with unbounded counters seen modulo 2^32. */
module RingWrap {
  import opened Bytes
  import opened Slicing
  import opened Options
  import opened Ring
  import opened RingInv
  import opened RingSteps
  import opened RingTheorems

  function W(x: nat): nat {
    x % U32
  }

  function WrapPc(pc: SenderPc): SenderPc {
    match pc
    case Scan(t, i, slow, maxUsed) => Scan(W(t), i, W(slow), maxUsed)
    case Cas(t) => Cas(W(t))
    case Fill(m, at, k, idx) => Fill(m, W(at), k, idx)
    case Stamp(m, at, k, idx) => Stamp(m, W(at), k, idx)
    case _ => pc
  }

  function WrapSender(snd: Sender): Sender {
    Sender(snd.msg, WrapPc(snd.pc))
  }

  function WrapReader(r: Reader): Reader {
    r.(pc := (if r.pc.Check? then Check(W(r.pc.tail)) else r.pc), head := W(r.head))
  }

  function WrapSlot(slot: Slot): Slot {
    slot.(stamp := W(slot.stamp))
  }

  function WrapSlots(slots: seq<Slot>): (w: seq<Slot>)
    ensures |w| == |slots|
  {
    seq(|slots|, i requires 0 <= i < |slots| => WrapSlot(slots[i]))
  }

  function WrapHeads(heads: seq<nat>): (w: seq<nat>)
    ensures |w| == |heads|
  {
    seq(|heads|, i requires 0 <= i < |heads| => W(heads[i]))
  }

  /** The state as the source stores it; the histories are the same. */
  function Wrap(s: State): State {
    State(W(s.tail), WrapHeads(s.heads), s.tokens, WrapSlots(s.slots),
          seq(|s.senders|, c requires 0 <= c < |s.senders| => WrapSender(s.senders[c])),
          seq(|s.readers|, i requires 0 <= i < |s.readers| => WrapReader(s.readers[i])), s.log, s.own)
  }

  function WrapOption(o: Option<State>): Option<State> {
    if o.Some? then Some(Wrap(o.value)) else None
  }

  /** A uint32 slot count that divides 2^32, that is, a power of two. */
  ghost predicate PowerOfTwo(n: nat) {
    0 < n < U32 && U32 % n == 0
  }

  /** No send call sleeps through 2^32 slots between loading the tail and trying to exchange it. */
  ghost predicate Punctual(s: State) {
    forall c :: 0 <= c < |s.senders| ==>
                  match s.senders[c].pc
                  case Scan(t, _, _, _) => s.tail < t + U32
                  case Cas(t) => s.tail < t + U32
                  case _ => true
  }

  /** No slot went unstamped for 2^32 sequence numbers. */
  ghost predicate StampsFresh(s: State) {
    forall p :: 0 <= p < |s.slots| ==> s.tail < s.slots[p].stamp + U32
  }

  // ----- arithmetic -----

  lemma SameModulo(a: int, b: int, q: int)
    requires a == q * U32 + b
    ensures a % U32 == b % U32
  {
  }

  lemma WrapAdd(x: nat, n: nat)
    ensures (W(x) + n) % U32 == W(x + n)
  {
    SameModulo(x + n, W(x) + n, x / U32);
  }

  lemma WrapSub(x: nat, y: nat)
    requires x < y + U32 && y < x + U32
    ensures Sub(Wrap32, W(x), W(y)) == Sub(Unbounded, x, y) < U32
    ensures W(x) == W(y) <==> x == y
  {
    var a, b := x / U32, y / U32;
    var d := W(x) - W(y);
    assert x - y == (a - b) * U32 + d;
    assert a - b == 0 || a - b == 1 || a - b == -1;
    assert d % U32 == if d < 0 then d + U32 else d;
    assert (x - y) % U32 == if x < y then x - y + U32 else x - y;
  }

  /** A difference below one turn survives the wrapping, however far `y` is ahead of `x`. */
  lemma WrapDifference(x: nat, y: nat)
    requires x < y + U32
    ensures Sub(Wrap32, W(x), W(y)) == Sub(Unbounded, x, y) < U32
  {
    var d := W(x) - W(y);
    var q := x / U32 - y / U32;
    assert x - y == q * U32 + d;
    SameModulo(x - y, d, q);
    if y <= x {
      assert (x - y) % U32 == x - y;
    }
  }

  lemma SameResidue(x: int, y: int)
    requires x >= 0 && y >= 0
    ensures W(x) == W(y) <==> (x - y) % U32 == 0
  {
    var d := W(x) - W(y);
    assert x - y == (x / U32 - y / U32) * U32 + d;
  }

  lemma AddMultiple(x: nat, k: nat, n: nat)
    requires n > 0
    ensures (k * n + x) % n == x % n
  {
    var a, b := (k * n + x) / n, x / n;
    assert k * n + x == a * n + (k * n + x) % n;
    assert x == b * n + x % n;
    assert (k + b) * n == k * n + b * n;
    assert (a + 1) * n == a * n + n;
    assert (k + b + 1) * n == k * n + b * n + n;
    if a < k + b {
      MulMonotone(a + 1, k + b, n);
    } else if a > k + b {
      MulMonotone(k + b + 1, a, n);
    }
  }

  /** The physical index is continuous across 2^32. */
  lemma WrapIndex(x: nat, n: nat)
    requires PowerOfTwo(n)
    ensures W(x) % n == x % n
  {
    var q := U32 / n;
    assert U32 == q * n + U32 % n;
    var k := x / U32;
    assert x == k * U32 + W(x);
    assert k * (q * n) == (k * q) * n;
    assert x == (k * q) * n + W(x);
    AddMultiple(W(x), k * q, n);
  }

  // ----- senders -----

  lemma WrapShaped(cfg: Config, s: State)
    requires s.Shaped(cfg)
    ensures Wrap(s).Shaped(cfg)
  {
    forall c | 0 <= c < |s.senders|
      ensures Wrap(s).SenderShaped(cfg, Wrap(s).senders[c])
    {
      assert s.SenderShaped(cfg, s.senders[c]);
    }
  }

  lemma WrapSetPc(s: State, c: nat, pc: SenderPc)
    requires c < |s.senders|
    ensures Wrap(SetPc(s, c, pc)) == SetPc(Wrap(s), c, WrapPc(pc))
  {
  }

  lemma WrapSetReader(s: State, i: nat, r: Reader)
    requires i < |s.readers|
    ensures Wrap(SetReader(s, i, r)) == SetReader(Wrap(s), i, WrapReader(r))
  {
  }

  lemma LoadTailWraps(cfg: Config, s: State, c: nat)
    requires s.Shaped(cfg) && Wrap(s).Shaped(cfg) && c < |s.senders|
    ensures LoadTailStep(cfg, Wrap(s), c) == WrapOption(LoadTailStep(cfg, s, c))
  {
    WrapSetPc(s, c, Refused);
    WrapSetPc(s, c, Scan(s.tail, 0, s.tail, 0));
  }

  lemma ScanTailBound(cfg: Config, s: State, c: nat)
    requires Inv(cfg, s) && c < |s.senders| && s.senders[c].pc.Scan?
    ensures var pc := s.senders[c].pc;
            pc.oldTail <= s.tail && pc.slow <= s.tail && pc.oldTail < pc.slow + cfg.slotCount
  {
    hide LogInv, MemInv, HeadsInv, BackLink, ReaderOk, TokensInv;
    assert SenderOk(cfg, s.log, s.own, s.slots, s.heads, c, s.senders[c]);
  }

  lemma LoadHeadWraps(cfg: Config, s: State, c: nat)
    requires Inv(cfg, s) && Wrap(s).Shaped(cfg) && c < |s.senders| && cfg.slotCount < U32
    ensures LoadHeadStep(Wrap32, cfg, Wrap(s), c) == WrapOption(LoadHeadStep(Unbounded, cfg, s, c))
  {
    hide LogInv, MemInv, SenderOk, BackLink, ReaderOk, TokensInv, Settled;
    match s.senders[c].pc
    case Scan(t, i, slow, maxUsed) =>
      if i < MAX_READER_COUNT {
        WrapSetPc(s, c, Scan(t, i + 1, slow, maxUsed));
        if i in cfg.readers {
          ScanTailBound(cfg, s, c);
          WrapDifference(t, s.heads[i]);
          WrapSetPc(s, c, Scan(t, i + 1, s.heads[i], Sub(Unbounded, t, s.heads[i])));
        }
      }
    case _ =>
  }

  lemma DecideWraps(cfg: Config, s: State, c: nat)
    requires Inv(cfg, s) && Wrap(s).Shaped(cfg) && c < |s.senders| && cfg.slotCount < U32
    ensures DecideStep(Wrap32, cfg, Wrap(s), c) == WrapOption(DecideStep(Unbounded, cfg, s, c))
  {
    hide LogInv, MemInv, HeadsInv, SenderOk, BackLink, ReaderOk, TokensInv;
    match s.senders[c].pc
    case Scan(t, i, slow, maxUsed) =>
      ScanTailBound(cfg, s, c);
      WrapDifference(t, slow);
      WrapSetPc(s, c, Refused);
      WrapSetPc(s, c, Cas(t));
    case _ =>
  }

  lemma CasTailBound(cfg: Config, s: State, c: nat)
    requires Inv(cfg, s) && c < |s.senders| && s.senders[c].pc.Cas?
    ensures s.senders[c].pc.oldTail <= s.tail
  {
    hide LogInv, MemInv, HeadsInv, BackLink, ReaderOk, TokensInv;
    assert SenderOk(cfg, s.log, s.own, s.slots, s.heads, c, s.senders[c]);
  }

  /** The tail has not run a whole number of turns ahead of the one that was loaded. */
  ghost predicate Distinct32(loaded: nat, tail: nat) {
    tail == loaded || (tail - loaded) % U32 != 0
  }

  /** Exactly when the wrapped exchange decides like the unbounded one: never after a whole turn of the counter. */
  lemma ExchangeAgrees(cfg: Config, s: State, c: nat)
    requires Inv(cfg, s) && Wrap(s).Shaped(cfg) && c < |s.senders| && s.senders[c].pc.Cas?
    ensures TryCasStep(Wrap32, cfg, Wrap(s), c, false) == WrapOption(TryCasStep(Unbounded, cfg, s, c, false))
       <==> Distinct32(s.senders[c].pc.oldTail, s.tail)
  {
    hide LogInv, MemInv, HeadsInv, SenderOk, BackLink, ReaderOk, TokensInv;
    var t := s.senders[c].pc.oldTail;
    CasTailBound(cfg, s, c);
    WrapAdd(t, cfg.Need(s.senders[c].msg));
    WrapSetPc(s, c, Start);
    WrapSetPc(s, c, Fill(|s.log|, t, 0, 0));
    SameResidue(s.tail, t);
    var a, b := TryCasStep(Wrap32, cfg, Wrap(s), c, false), WrapOption(TryCasStep(Unbounded, cfg, s, c, false));
    if W(s.tail) == W(t) && s.tail != t {
      assert |a.value.log| == |s.log| + 1 && |b.value.log| == |s.log|;
    }
  }

  lemma TryCasWraps(cfg: Config, s: State, c: nat, spurious: bool)
    requires Inv(cfg, s) && Wrap(s).Shaped(cfg) && c < |s.senders|
    requires s.senders[c].pc.Cas? && !spurious ==> Distinct32(s.senders[c].pc.oldTail, s.tail)
    ensures TryCasStep(Wrap32, cfg, Wrap(s), c, spurious) == WrapOption(TryCasStep(Unbounded, cfg, s, c, spurious))
  {
    hide LogInv, MemInv, HeadsInv, SenderOk, BackLink, ReaderOk, TokensInv, Distinct32;
    if s.senders[c].pc.Cas? {
      WrapSetPc(s, c, Start);
      if !spurious {
        ExchangeAgrees(cfg, s, c);
      }
    }
  }

  lemma ScribbleWraps(cfg: Config, s: State, c: nat, id: nat, count: nat, data: seq<byte>)
    requires s.Shaped(cfg) && Wrap(s).Shaped(cfg) && c < |s.senders| && PowerOfTwo(cfg.slotCount)
    ensures ScribbleStep(cfg, Wrap(s), c, id, count, data) == WrapOption(ScribbleStep(cfg, s, c, id, count, data))
  {
    match s.senders[c].pc
    case Fill(_, at, _, _) =>
      WrapIndex(at, cfg.slotCount);
      var a, b := ScribbleStep(cfg, Wrap(s), c, id, count, data), ScribbleStep(cfg, s, c, id, count, data);
      if b.Some? {
        assert a.value.slots == WrapSlots(b.value.slots);
      }
    case _ =>
  }

  lemma FillSlotWraps(cfg: Config, s: State, c: nat)
    requires s.Shaped(cfg) && Wrap(s).Shaped(cfg) && c < |s.senders| && PowerOfTwo(cfg.slotCount)
    ensures FillSlotStep(cfg, Wrap(s), c) == WrapOption(FillSlotStep(cfg, s, c))
  {
    hide Piece, Overwrite;
    match s.senders[c].pc
    case Fill(m, at, k, idx) =>
      WrapIndex(at, cfg.slotCount);
      WrapSetPc(s, c, Stamp(m, at, k, idx));
      var a, b := FillSlotStep(cfg, Wrap(s), c), FillSlotStep(cfg, s, c);
      if b.Some? {
        assert a.value.slots == WrapSlots(b.value.slots);
      }
    case _ =>
  }

  lemma StampSlotWraps(cfg: Config, s: State, c: nat)
    requires s.Shaped(cfg) && Wrap(s).Shaped(cfg) && c < |s.senders| && PowerOfTwo(cfg.slotCount)
    ensures StampSlotStep(Wrap32, cfg, Wrap(s), c) == WrapOption(StampSlotStep(Unbounded, cfg, s, c))
  {
    match s.senders[c].pc
    case Stamp(m, at, k, idx) =>
      WrapIndex(at, cfg.slotCount);
      WrapAdd(at, 1);
      var idx' := idx + Copied(cfg.slotSize, |s.senders[c].msg.data|, k == 0, idx);
      WrapSetPc(s, c, Fill(m, at + 1, k + 1, idx'));
      WrapSetPc(s, c, Post(m, 0));
      var a, b := StampSlotStep(Wrap32, cfg, Wrap(s), c), StampSlotStep(Unbounded, cfg, s, c);
      assert a.value.slots == WrapSlots(b.value.slots);
    case _ =>
  }

  lemma PostSemWraps(cfg: Config, s: State, c: nat)
    requires s.Shaped(cfg) && Wrap(s).Shaped(cfg) && c < |s.senders|
    ensures PostSemStep(cfg, Wrap(s), c) == WrapOption(PostSemStep(cfg, s, c))
  {
    match s.senders[c].pc
    case Post(m, i) =>
      WrapSetPc(s, c, Returned(m));
      WrapSetPc(s, c, Post(m, i + 1));
    case _ =>
  }

  lemma KillWraps(cfg: Config, s: State, c: nat)
    requires s.Shaped(cfg) && Wrap(s).Shaped(cfg) && c < |s.senders|
    ensures KillStep(Wrap(s), c) == WrapOption(KillStep(s, c))
  {
    WrapSetPc(s, c, Dead);
  }

  // ----- readers -----

  /** A reader's head, the tail it looks at and the stamps it meets are less than one turn of the counter apart. */
  lemma ReaderNear(cfg: Config, s: State, i: nat)
    requires Inv(cfg, s) && i in cfg.readers && cfg.slotCount < U32
    ensures s.readers[i].head <= s.tail < s.readers[i].head + U32
    ensures s.readers[i].pc.Check? ==>
              s.readers[i].head < s.readers[i].pc.tail <= s.tail < s.readers[i].head + cfg.slotCount
  {
    hide LogInv, MemInv, SenderOk, BackLink, TokensInv, AsmOk, Settled, Complete, Turn;
    assert ReaderOk(cfg, s.log, s.own, s.heads[i], s.readers[i]);
  }

  lemma WaitWraps(cfg: Config, s: State, i: nat)
    requires s.Shaped(cfg) && Wrap(s).Shaped(cfg) && i in cfg.readers
    ensures WaitStep(cfg, Wrap(s), i) == WrapOption(WaitStep(cfg, s, i))
  {
    var r := s.readers[i];
    WrapSetReader(s, i, r.(pc := Loop, asm := NOTHING, waits := r.waits + 1));
  }

  lemma LookWraps(cfg: Config, s: State, i: nat)
    requires Inv(cfg, s) && Wrap(s).Shaped(cfg) && i in cfg.readers && cfg.slotCount < U32
    ensures LookStep(cfg, Wrap(s), i) == WrapOption(LookStep(cfg, s, i))
  {
    hide LogInv, MemInv, HeadsInv, SenderOk, BackLink, ReaderOk, TokensInv;
    ReaderNear(cfg, s, i);
    WrapSub(s.tail, s.readers[i].head);
    WrapSetReader(s, i, Finish(s.readers[i]));
    WrapSetReader(s, i, s.readers[i].(pc := Check(s.tail)));
  }

  /** The slot's stamp is its own one, or differs from it by more than whole turns of the counter. */
  ghost predicate Tells(slots: seq<Slot>, at: nat)
    requires |slots| > 0
  {
    var stamp := slots[at % |slots|].stamp;
    stamp == at + 1 || (at + 1 - stamp) % U32 != 0
  }

  /** Every slot from the reader's head on is told apart from a published one by its uint32 stamp. */
  ghost predicate Readable(s: State, i: nat) {
    i < |s.readers| && |s.slots| > 0 && forall x :: s.readers[i].head <= x < s.tail ==> Tells(s.slots, x)
  }

  /** The test m_seq == head + 1 on uint32 values. */
  ghost predicate Accepts(slots: seq<Slot>, at: nat)
    requires |slots| > 0
  {
    WrapSlots(slots)[W(at) % |slots|].stamp == Add(Wrap32, W(at), 1)
  }

  /** Exactly when the test on uint32 values accepts a slot for what it is: never across whole turns of the counter. */
  lemma StampTestAgrees(slots: seq<Slot>, at: nat)
    requires PowerOfTwo(|slots|)
    ensures (Accepts(slots, at) <==> slots[at % |slots|].stamp == at + 1) <==> Tells(slots, at)
    ensures slots[at % |slots|].stamp == at + 1 ==> Accepts(slots, at)
  {
    var stamp := slots[at % |slots|].stamp;
    WrapIndex(at, |slots|);
    WrapAdd(at, 1);
    SameResidue(at + 1, stamp);
  }

  /**
   * Where it goes wrong: the last sequence number before the wrap is stamped 0, which is also what a slot holds that
   * nobody ever stamped. Such a slot, left behind by dead senders, passes for published.
   */
  lemma ZeroedSlotIsMistaken(slots: seq<Slot>)
    requires PowerOfTwo(|slots|) && slots[(U32 - 1) % |slots|].stamp == 0
    ensures var at := U32 - 1; Accepts(slots, at) && slots[at % |slots|].stamp != at + 1 && !Tells(slots, at)
  {
    StampTestAgrees(slots, U32 - 1);
  }

  /** A stamp less than one turn old is never mistaken. */
  lemma FreshTells(cfg: Config, log: seq<Entry>, own: seq<Own>, slots: seq<Slot>, at: nat)
    requires cfg.Valid() && MemInv(cfg, log, own, slots) && at < |own| < at + cfg.slotCount
    requires |own| < slots[at % cfg.slotCount].stamp + U32 && cfg.slotCount < U32
    ensures Tells(slots, at)
  {
    var stamp := slots[at % cfg.slotCount].stamp;
    assert stamp <= |own| by {
      assert stamp != 0 ==> Published(log, own, stamp - 1);
    }
    var d := at + 1 - stamp;
    assert -U32 < d < U32;
    if d < 0 {
      assert d % U32 == d + U32;
    }
  }

  /** A published slot of the current lap is never mistaken. */
  lemma PublishedTells(cfg: Config, log: seq<Entry>, own: seq<Own>, slots: seq<Slot>, at: nat)
    requires cfg.Valid() && MemInv(cfg, log, own, slots) && |own| <= at + cfg.slotCount && Published(log, own, at)
    ensures Tells(slots, at)
  {
    assert Intact(cfg, log, own, slots, at);
  }

  lemma CheckStampWraps(cfg: Config, s: State, i: nat)
    requires Inv(cfg, s) && Wrap(s).Shaped(cfg) && i in cfg.readers && PowerOfTwo(cfg.slotCount)
    requires s.readers[i].pc.Check?
    ensures CheckStampStep(Wrap32, cfg, Wrap(s), i) == WrapOption(CheckStampStep(Unbounded, cfg, s, i))
       <==> Tells(s.slots, s.readers[i].head)
  {
    hide LogInv, MemInv, HeadsInv, SenderOk, BackLink, ReaderOk, TokensInv, Tells;
    var r := s.readers[i];
    StampTestAgrees(s.slots, r.head);
    WrapSetReader(s, i, r.(pc := Copy));
    WrapSetReader(s, i, r.(pc := Loop));
    var a, b := CheckStampStep(Wrap32, cfg, Wrap(s), i), WrapOption(CheckStampStep(Unbounded, cfg, s, i));
    assert a.value.readers[i].pc == if Accepts(s.slots, r.head) then Copy else Loop;
    assert b.value.readers[i].pc == if s.slots[r.head % cfg.slotCount].stamp == r.head + 1 then Copy else Loop;
  }

  lemma AbsorbIgnoresStamp(slotSize: nat, a: Assembly, slot: Slot)
    requires slotSize >= 6 && |slot.data| == slotSize
    ensures Absorb(slotSize, a, WrapSlot(slot)) == Absorb(slotSize, a, slot)
  {
  }

  lemma CopySlotWraps(cfg: Config, s: State, i: nat)
    requires s.Shaped(cfg) && Wrap(s).Shaped(cfg) && i in cfg.readers && PowerOfTwo(cfg.slotCount)
    ensures CopySlotStep(Wrap32, cfg, Wrap(s), i) == WrapOption(CopySlotStep(Unbounded, cfg, s, i))
  {
    hide Absorb;
    var r := s.readers[i];
    WrapIndex(r.head, cfg.slotCount);
    WrapAdd(r.head, 1);
    var o := CopySlotStep(Unbounded, cfg, s, i);
    if o.Some? {
      var p := r.head % cfg.slotCount;
      AbsorbIgnoresStamp(cfg.slotSize, r.asm, s.slots[p]);
      WrapSetReader(s, i, o.value.readers[i]);
    }
  }

  lemma PublishHeadWraps(cfg: Config, s: State, i: nat)
    requires s.Shaped(cfg) && Wrap(s).Shaped(cfg) && i in cfg.readers
    ensures PublishHeadStep(cfg, Wrap(s), i) == WrapOption(PublishHeadStep(cfg, s, i))
  {
    var r := s.readers[i];
    if r.pc.Publish? {
      WrapSetReader(s, i, if r.pc.fin then Finish(r) else r.(pc := Loop));
      assert WrapHeads(s.heads[i := r.head]) == WrapHeads(s.heads)[i := W(r.head)];
    }
  }

  /** The two scans end at the same place exactly if no slot on the way is mistaken. */
  lemma {:induction false} ScanWraps(cfg: Config, slots: seq<Slot>, at: nat, left: nat)
    requires PowerOfTwo(cfg.slotCount) && |slots| == cfg.slotCount
    ensures ScanLength(Wrap32, cfg, WrapSlots(slots), W(at), left) <= ScanLength(Unbounded, cfg, slots, at, left)
    ensures ScanLength(Wrap32, cfg, WrapSlots(slots), W(at), left) == ScanLength(Unbounded, cfg, slots, at, left)
       <==> forall x :: at <= x < at + ScanLength(Unbounded, cfg, slots, at, left) ==> Tells(slots, x)
    decreases left
  {
    hide Tells;
    if left > 0 {
      StampTestAgrees(slots, at);
      WrapAdd(at, 1);
      ScanWraps(cfg, slots, at + 1, left - 1);
    }
  }

  /** None of the slots the stall scan passes is mistaken for a published one. */
  ghost predicate ScanTells(cfg: Config, s: State, i: nat)
    requires s.Shaped(cfg) && i in cfg.readers && s.readers[i].pc.Check?
  {
    var head := s.readers[i].head;
    forall x :: head <= x < head + Stalled(Unbounded, cfg, s, i) ==> Tells(s.slots, x)
  }

  lemma ScanStops(ar: Arith, cfg: Config, slots: seq<Slot>, at: nat, left: nat)
    requires cfg.slotCount > 0 && |slots| == cfg.slotCount && left > 0
    ensures ScanLength(ar, cfg, slots, at, left) == 0 <==> slots[at % cfg.slotCount].stamp == Add(ar, at, 1)
  {
  }

  lemma AcceptsMeans(slots: seq<Slot>, at: nat)
    requires |slots| > 0
    ensures Accepts(slots, at) <==> WrapSlots(slots)[W(at) % |slots|].stamp == Add(Wrap32, W(at), 1)
  {
  }

  lemma StalledWraps(cfg: Config, s: State, i: nat)
    requires Inv(cfg, s) && Wrap(s).Shaped(cfg) && i in cfg.readers && PowerOfTwo(cfg.slotCount)
    requires s.readers[i].pc.Check?
    ensures Stalled(Wrap32, cfg, Wrap(s), i) <= Stalled(Unbounded, cfg, s, i) <= MAX_SLICE_COUNT
    ensures Stalled(Wrap32, cfg, Wrap(s), i) == Stalled(Unbounded, cfg, s, i) <==> ScanTells(cfg, s, i)
    ensures s.readers[i].pos == s.readers[i].head
    ensures s.slots[s.readers[i].head % cfg.slotCount].stamp == s.readers[i].head + 1
      <==> Stalled(Unbounded, cfg, s, i) == 0
    ensures Accepts(s.slots, s.readers[i].head) <==> Stalled(Wrap32, cfg, Wrap(s), i) == 0
  {
    hide LogInv, MemInv, HeadsInv, SenderOk, BackLink, TokensInv, Tells, Accepts, ScanLength, AsmOk, Complete, Turn;
    hide Settled;
    var r := s.readers[i];
    var left := Min(Sub(Unbounded, r.pc.tail, r.head), MAX_SLICE_COUNT);
    assert ReaderOk(cfg, s.log, s.own, s.heads[i], r);
    ReaderNear(cfg, s, i);
    WrapSub(r.pc.tail, r.head);
    ScanWraps(cfg, s.slots, r.head, left);
    ScanStops(Unbounded, cfg, s.slots, r.head, left);
    ScanStops(Wrap32, cfg, WrapSlots(s.slots), W(r.head), left);
    assert Accepts(s.slots, r.head)
      <==> WrapSlots(s.slots)[W(r.head) % cfg.slotCount].stamp == Add(Wrap32, W(r.head), 1) by {
      AcceptsMeans(s.slots, r.head);
    }
  }

  lemma TimeoutWraps(cfg: Config, s: State, i: nat)
    requires Inv(cfg, s) && Wrap(s).Shaped(cfg) && i in cfg.readers && PowerOfTwo(cfg.slotCount)
    requires s.readers[i].pc.Check?
    ensures ScanTells(cfg, s, i) ==>
              TimeoutStep(Wrap32, cfg, Wrap(s), i) == WrapOption(TimeoutStep(Unbounded, cfg, s, i))
    ensures TimeoutStep(Unbounded, cfg, s, i).Some? && !ScanTells(cfg, s, i) ==>
              TimeoutStep(Wrap32, cfg, Wrap(s), i) != WrapOption(TimeoutStep(Unbounded, cfg, s, i))
  {
    hide LogInv, MemInv, HeadsInv, SenderOk, BackLink, ReaderOk, TokensInv;
    hide Stalled, OwnerDead, ScanTells, ScanLength;
    var r, n := s.readers[i], Stalled(Unbounded, cfg, s, i);
    StalledWraps(cfg, s, i);
    WrapIndex(r.head, cfg.slotCount);
    WrapAdd(r.head, n);
    WrapSetReader(s, i, r.(pc := Publish(true), head := r.head + n, pos := r.pos + n, asm := NOTHING.(id := r.asm.id)));
    var a, b := TimeoutStep(Wrap32, cfg, Wrap(s), i), TimeoutStep(Unbounded, cfg, s, i);
    if b.Some? && !ScanTells(cfg, s, i) && a.Some? {
      assert a.value.readers[i].pos < b.value.readers[i].pos == Wrap(b.value).readers[i].pos;
    }
  }

  // ----- one step -----

  /** The uint32 values that this step compares are told apart as the true ones are. */
  ghost predicate Unmistaken(cfg: Config, s: State, a: Action)
    requires s.Shaped(cfg)
  {
    match a
    case TryCas(c, spurious) =>
      c < |s.senders| && s.senders[c].pc.Cas? && !spurious ==> Distinct32(s.senders[c].pc.oldTail, s.tail)
    case CheckStamp(i) => i in cfg.readers && s.readers[i].pc.Check? ==> Tells(s.slots, s.readers[i].head)
    case Timeout(i) => i in cfg.readers && s.readers[i].pc.Check? ==> ScanTells(cfg, s, i)
    case _ => true
  }

  /** One step: the wrapped ring is enabled exactly when the unbounded one is, and lands on its image. */
  lemma StepWraps(cfg: Config, s: State, a: Action)
    requires Inv(cfg, s) && PowerOfTwo(cfg.slotCount) && Unmistaken(cfg, s, a)
    ensures Wrap(s).Shaped(cfg)
    ensures Next(Wrap32, cfg, Wrap(s), a) == WrapOption(Next(Unbounded, cfg, s, a))
  {
    hide LogInv, MemInv, HeadsInv, SenderOk, BackLink, ReaderOk, TokensInv, Tells, ScanTells, Distinct32;
    hide LoadTailStep, LoadHeadStep, DecideStep, TryCasStep, FillSlotStep, StampSlotStep, PostSemStep, KillStep;
    hide ScribbleStep, WaitStep, LookStep, CopySlotStep, PublishHeadStep;
    WrapShaped(cfg, s);
    match a
    case Call(msg) =>
      assert Wrap(s.(senders := s.senders + [Sender(msg, Start)])) ==
             Wrap(s).(senders := Wrap(s).senders + [Sender(msg, Start)]);
    case LoadTail(c) => if c < |s.senders| { LoadTailWraps(cfg, s, c); }
    case LoadHead(c) => if c < |s.senders| { LoadHeadWraps(cfg, s, c); }
    case Decide(c) => if c < |s.senders| { DecideWraps(cfg, s, c); }
    case TryCas(c, spurious) => if c < |s.senders| { TryCasWraps(cfg, s, c, spurious); }
    case Scribble(c, id, count, data) => if c < |s.senders| { ScribbleWraps(cfg, s, c, id, count, data); }
    case FillSlot(c) => if c < |s.senders| { FillSlotWraps(cfg, s, c); }
    case StampSlot(c) => if c < |s.senders| { StampSlotWraps(cfg, s, c); }
    case PostSem(c) => if c < |s.senders| { PostSemWraps(cfg, s, c); }
    case Kill(c) => if c < |s.senders| { KillWraps(cfg, s, c); }
    case Wait(i) => if i in cfg.readers { WaitWraps(cfg, s, i); }
    case Look(i) => if i in cfg.readers { LookWraps(cfg, s, i); }
    case CheckStamp(i) => if i in cfg.readers && s.readers[i].pc.Check? { CheckStampWraps(cfg, s, i); }
    case Timeout(i) => if i in cfg.readers && s.readers[i].pc.Check? { TimeoutWraps(cfg, s, i); }
    case CopySlot(i) => if i in cfg.readers { CopySlotWraps(cfg, s, i); }
    case PublishHead(i) => if i in cfg.readers { PublishHeadWraps(cfg, s, i); }
  }

  /** ... and exactly then: a step that mistakes a value goes somewhere else. */
  lemma StepStrays(cfg: Config, s: State, a: Action)
    requires Inv(cfg, s) && PowerOfTwo(cfg.slotCount) && !Unmistaken(cfg, s, a)
    requires a.Timeout? ==> Next(Unbounded, cfg, s, a).Some?
    ensures Wrap(s).Shaped(cfg)
    ensures Next(Wrap32, cfg, Wrap(s), a) != WrapOption(Next(Unbounded, cfg, s, a))
  {
    hide LogInv, MemInv, HeadsInv, SenderOk, BackLink, ReaderOk, TokensInv, Tells, ScanTells, Distinct32;
    hide TryCasStep, CheckStampStep, TimeoutStep;
    WrapShaped(cfg, s);
    match a
    case TryCas(c, _) => ExchangeAgrees(cfg, s, c);
    case CheckStamp(i) => CheckStampWraps(cfg, s, i);
    case Timeout(i) => TimeoutWraps(cfg, s, i);
    case _ =>
  }

  lemma TameTells(cfg: Config, s: State, i: nat)
    requires Inv(cfg, s) && PowerOfTwo(cfg.slotCount) && StampsFresh(s)
    ensures i in cfg.readers && s.readers[i].pc.Check? ==> Tells(s.slots, s.readers[i].head) && ScanTells(cfg, s, i)
  {
    hide LogInv, MemInv, HeadsInv, SenderOk, BackLink, ReaderOk, TokensInv, Tells;
    if i in cfg.readers && s.readers[i].pc.Check? {
      var r := s.readers[i];
      ReaderNear(cfg, s, i);
      forall x | r.head <= x < r.pc.tail
        ensures Tells(s.slots, x)
      {
        FreshTells(cfg, s.log, s.own, s.slots, x);
      }
    }
  }

  /** Punctual senders and stamps less than one turn old are enough. */
  lemma TameIsUnmistaken(cfg: Config, s: State, a: Action)
    requires Inv(cfg, s) && PowerOfTwo(cfg.slotCount) && Punctual(s) && StampsFresh(s)
    ensures Unmistaken(cfg, s, a)
  {
    hide LogInv, MemInv, HeadsInv, SenderOk, BackLink, ReaderOk, TokensInv, Tells;
    match a
    case TryCas(c, _) =>
      if c < |s.senders| && s.senders[c].pc.Cas? {
        CasTailBound(cfg, s, c);
      }
    case CheckStamp(i) => TameTells(cfg, s, i);
    case Timeout(i) => TameTells(cfg, s, i);
    case _ =>
  }

  // ----- whole runs -----

  /** The same actions with unbounded counters never meet two values that only uint32 arithmetic confuses. */
  ghost predicate NeverMistaken(cfg: Config, acts: seq<Action>) {
    forall t: seq<State>, k :: 0 <= k < |acts| && Run(Unbounded, cfg, t, acts[..k]) ==> Unmistaken(cfg, t[k], acts[k])
  }

  lemma InitWraps(cfg: Config)
    ensures Wrap(Init(cfg)) == Init(cfg)
  {
  }

  /** A run of the unbounded ring is, state by state, a run of the uint32 ring. */
  lemma RunWraps(cfg: Config, tr: seq<State>, acts: seq<Action>)
    requires Run(Unbounded, cfg, tr, acts) && cfg.Valid() && PowerOfTwo(cfg.slotCount)
    requires forall n :: 0 <= n < |acts| ==> Unmistaken(cfg, tr[n], acts[n])
    ensures Run(Wrap32, cfg, seq(|tr|, n requires 0 <= n < |tr| => Wrap(tr[n])), acts)
  {
    hide Inv, Next, Init, Wrap, Unmistaken;
    var w := seq(|tr|, n requires 0 <= n < |tr| => Wrap(tr[n]));
    InitWraps(cfg);
    forall n | 0 <= n < |tr|
      ensures w[n].Shaped(cfg)
    {
      WrapShaped(cfg, tr[n]);
    }
    forall n | 0 <= n < |acts|
      ensures StepAt(Wrap32, cfg, w, acts, n)
    {
      RunKeeps(cfg, tr, acts, n);
      assert StepAt(Unbounded, cfg, tr, acts, n);
      StepWraps(cfg, tr[n], acts[n]);
    }
  }

  lemma RunPrefix(ar: Arith, cfg: Config, w: seq<State>, acts: seq<Action>, k: nat)
    requires Run(ar, cfg, w, acts) && k <= |acts|
    ensures Run(ar, cfg, w[..k + 1], acts[..k])
  {
    hide Next, Init;
    var front, before := w[..k + 1], acts[..k];
    forall n | 0 <= n < k
      ensures StepAt(ar, cfg, front, before, n)
    {
      assert StepAt(ar, cfg, w, acts, n);
    }
  }

  /** `w` is the unbounded run `tr` as the source stores it. */
  ghost predicate Twin(cfg: Config, w: seq<State>, tr: seq<State>, acts: seq<Action>) {
    Run(Unbounded, cfg, tr, acts) && |tr| == |w| && forall n :: 0 <= n < |w| ==> w[n] == Wrap(tr[n])
  }

  lemma NextShaped(cfg: Config, s: State, a: Action)
    requires Inv(cfg, s)
    ensures var r := Next(Unbounded, cfg, s, a); r.Some? ==> r.value.Shaped(cfg)
  {
    hide Next;
    NextKeeps(cfg, s, a);
  }

  lemma LastUnwraps(cfg: Config, w: seq<State>, acts: seq<Action>, pre: seq<State>) returns (tr: seq<State>)
    requires Run(Wrap32, cfg, w, acts) && cfg.Valid() && PowerOfTwo(cfg.slotCount) && |acts| > 0
    requires Run(Unbounded, cfg, pre, acts[..|acts| - 1]) && Unmistaken(cfg, pre[|acts| - 1], acts[|acts| - 1])
    requires forall n :: 0 <= n < |pre| ==> w[n] == Wrap(pre[n])
    ensures Twin(cfg, w, tr, acts)
  {
    hide Inv, Next, Init, Wrap, Unmistaken;
    var k := |acts| - 1;
    RunKeeps(cfg, pre, acts[..k], k);
    StepWraps(cfg, pre[k], acts[k]);
    assert StepAt(Wrap32, cfg, w, acts, k);
    var last := Next(Unbounded, cfg, pre[k], acts[k]).value;
    NextShaped(cfg, pre[k], acts[k]);
    tr := pre + [last];
    forall n | 0 <= n < |acts|
      ensures StepAt(Unbounded, cfg, tr, acts, n)
    {
      if n < k {
        assert acts[..k][n] == acts[n];
        assert StepAt(Unbounded, cfg, pre, acts[..k], n);
      }
    }
  }

  /** A uint32 run whose values are never mistaken is the image of an unbounded one, so what holds there holds here. */
  lemma {:induction false} RunUnwraps(cfg: Config, w: seq<State>, acts: seq<Action>) returns (tr: seq<State>)
    requires Run(Wrap32, cfg, w, acts) && cfg.Valid() && PowerOfTwo(cfg.slotCount) && NeverMistaken(cfg, acts)
    ensures Twin(cfg, w, tr, acts)
    decreases |acts|
  {
    hide Inv, Next, Init, Wrap, Unmistaken, StepAt;
    InitWraps(cfg);
    if acts == [] {
      tr := [Init(cfg)];
      InvInit(cfg);
    } else {
      var k := |acts| - 1;
      var front := acts[..k];
      assert forall n :: 0 <= n <= k ==> front[..n] == acts[..n];
      RunPrefix(Wrap32, cfg, w, acts, k);
      var pre := RunUnwraps(cfg, w[..k + 1], front);
      tr := LastUnwraps(cfg, w, acts, pre);
    }
  }

  /** The unbounded run with given actions is determined. */
  lemma {:induction false} RunsAgree(cfg: Config, tr: seq<State>, acts: seq<Action>, t: seq<State>, k: nat, n: nat)
    requires Run(Unbounded, cfg, tr, acts) && k <= |acts| && Run(Unbounded, cfg, t, acts[..k]) && n <= k
    ensures t[n] == tr[n]
  {
    hide Next, Init;
    if n > 0 {
      RunsAgree(cfg, tr, acts, t, k, n - 1);
      assert StepAt(Unbounded, cfg, tr, acts, n - 1);
      assert StepAt(Unbounded, cfg, t, acts[..k], n - 1);
    }
  }

  lemma TwinStep(cfg: Config, w: seq<State>, tr: seq<State>, acts: seq<Action>, k: nat)
    requires Run(Wrap32, cfg, w, acts) && Twin(cfg, w, tr, acts) && cfg.Valid() && PowerOfTwo(cfg.slotCount)
    requires k < |acts|
    ensures Unmistaken(cfg, tr[k], acts[k])
  {
    hide Inv, Next, Init, Wrap, Unmistaken;
    RunKeeps(cfg, tr, acts, k);
    assert StepAt(Wrap32, cfg, w, acts, k) && StepAt(Unbounded, cfg, tr, acts, k);
    if !Unmistaken(cfg, tr[k], acts[k]) {
      StepStrays(cfg, tr[k], acts[k]);
    }
  }

  /** A uint32 run is the image of an unbounded one exactly if its values are never mistaken. */
  lemma TwinExactlyIfUnmistaken(cfg: Config, w: seq<State>, acts: seq<Action>)
    requires Run(Wrap32, cfg, w, acts) && cfg.Valid() && PowerOfTwo(cfg.slotCount)
    ensures (exists tr :: Twin(cfg, w, tr, acts)) <==> NeverMistaken(cfg, acts)
  {
    hide Inv, Next, Init, Wrap, Unmistaken, StepAt;
    if NeverMistaken(cfg, acts) {
      var tr := RunUnwraps(cfg, w, acts);
    }
    if tr :| Twin(cfg, w, tr, acts) {
      forall t: seq<State>, k | 0 <= k < |acts| && Run(Unbounded, cfg, t, acts[..k])
        ensures Unmistaken(cfg, t[k], acts[k])
      {
        RunsAgree(cfg, tr, acts, t, k, k);
        TwinStep(cfg, w, tr, acts, k);
      }
    }
  }

  // ----- while nobody dies the stamps are never stale -----

  /** An unpublished slot of the current lap still carries the stamp of the lap before. */
  ghost predicate LapInv(cfg: Config, s: State)
    requires s.Shaped(cfg)
  {
    && (forall at {:trigger Published(s.log, s.own, at)} ::
          0 <= at < |s.own| <= at + cfg.slotCount && !Published(s.log, s.own, at) ==>
            s.slots[at % cfg.slotCount].stamp == if at >= cfg.slotCount then at + 1 - cfg.slotCount else 0)
    && (forall p :: |s.own| <= p < cfg.slotCount ==> s.slots[p].stamp == 0)
  }

  lemma TwoLapsFit(n: nat)
    requires PowerOfTwo(n)
    ensures 2 * n <= U32
  {
    var q := U32 / n;
    assert U32 == q * n + U32 % n;
    if q < 2 {
      MulMonotone(q, 1, n);
    } else {
      MulMonotone(2, q, n);
    }
  }

  /** The youngest sequence number below `tail` that lives in slot `p`. */
  lemma LastAt(tail: nat, p: nat, n: nat) returns (at: nat)
    requires p < n && p < tail
    ensures at < tail <= at + n && at % n == p
  {
    var q := (tail - 1 - p) / n;
    DivParts(tail - 1 - p, n);
    AddMultiple(p, q, n);
    ModAtMost(p, n);
    at := q * n + p;
  }

  lemma LapFresh(cfg: Config, s: State)
    requires Inv(cfg, s) && LapInv(cfg, s) && PowerOfTwo(cfg.slotCount)
    ensures StampsFresh(s)
  {
    hide LogInv, SenderOk, BackLink, ReaderOk, TokensInv, HeadsInv;
    var n := cfg.slotCount;
    TwoLapsFit(n);
    forall p | 0 <= p < n
      ensures s.tail < s.slots[p].stamp + U32
    {
      if p < |s.own| {
        var at := LastAt(|s.own|, p, n);
        if Published(s.log, s.own, at) {
          assert Intact(cfg, s.log, s.own, s.slots, at);
        }
      }
    }
  }

  lemma LapFrame(cfg: Config, s: State, s': State)
    requires s.Shaped(cfg) && s'.Shaped(cfg) && LapInv(cfg, s) && s'.own == s.own
    requires forall p :: 0 <= p < cfg.slotCount ==> s'.slots[p].stamp == s.slots[p].stamp
    requires forall at :: 0 <= at ==> (Published(s'.log, s.own, at) <==> Published(s.log, s.own, at))
    ensures LapInv(cfg, s')
  {
  }

  lemma CasRoom(cfg: Config, s: State, c: nat) returns (j: nat)
    requires Inv(cfg, s) && c < |s.senders| && s.senders[c].pc == Cas(s.tail)
    ensures j in cfg.readers && s.tail + cfg.Need(s.senders[c].msg) <= s.heads[j] + cfg.slotCount - 1
  {
    hide LogInv, MemInv, HeadsInv, ReaderOk, BackLink, TokensInv;
    assert SenderOk(cfg, s.log, s.own, s.slots, s.heads, c, s.senders[c]);
    j :| j in cfg.readers;
  }

  /** A live ring has published everything behind a head. */
  lemma BehindHeadIsStamped(cfg: Config, s: State, j: nat, at: nat)
    requires Inv(cfg, s) && AllLive(s.log) && j in cfg.readers && at < s.heads[j] && |s.own| <= at + cfg.slotCount
    ensures s.slots[at % cfg.slotCount].stamp == at + 1
  {
    hide SenderOk, ReaderOk, BackLink, TokensInv, LogInv, Carries;
    assert Settled(s.log, s.own, at);
    assert Published(s.log, s.own, at);
    assert Intact(cfg, s.log, s.own, s.slots, at);
  }

  lemma CasLapNew(cfg: Config, s: State, c: nat, at: nat)
    requires Inv(cfg, s) && AllLive(s.log) && LapInv(cfg, s) && c < |s.senders| && s.senders[c].pc == Cas(s.tail)
    requires s.tail <= at < s.tail + cfg.Need(s.senders[c].msg)
    ensures s.slots[at % cfg.slotCount].stamp == if at >= cfg.slotCount then at + 1 - cfg.slotCount else 0
  {
    hide LogInv, MemInv, HeadsInv, SenderOk, ReaderOk, BackLink, TokensInv, AllLive;
    var n := cfg.slotCount;
    var j := CasRoom(cfg, s, c);
    if at >= n {
      BehindHeadIsStamped(cfg, s, j, at - n);
      ModLapBefore(at, n);
    } else {
      ModAtMost(at, n);
    }
  }

  /** The exchange reserves slots whose last lap every reader has left, so that lap was published. */
  lemma CasLap(cfg: Config, s: State, c: nat)
    requires Inv(cfg, s) && AllLive(s.log) && LapInv(cfg, s) && c < |s.senders| && s.senders[c].pc == Cas(s.tail)
    ensures var r := TryCasStep(Unbounded, cfg, s, c, false); r.Some? && r.value.Shaped(cfg) && LapInv(cfg, r.value)
  {
    hide HeadsInv, SenderOk, ReaderOk, BackLink, TokensInv;
    CasShape(cfg, s, c);
    var s' := TryCasStep(Unbounded, cfg, s, c, false).value;
    var n := cfg.slotCount;
    forall at | 0 <= at < |s'.own| <= at + n && !Published(s'.log, s'.own, at)
      ensures s'.slots[at % n].stamp == if at >= n then at + 1 - n else 0
    {
      if at < |s.own| {
        CasMem(cfg, s, c);
        SettledStays(cfg, s.log, s.own, s'.log, s'.own, at);
      } else {
        CasLapNew(cfg, s, c, at);
      }
    }
  }

  lemma StampLapParts(cfg: Config, s: State, c: nat)
    requires Inv(cfg, s) && LapInv(cfg, s) && c < |s.senders| && s.senders[c].pc.Stamp?
    ensures var s' := StampSlotStep(Unbounded, cfg, s, c).value;
            forall p :: |s.own| <= p < cfg.slotCount ==> s'.slots[p].stamp == 0
  {
    hide LogInv, MemInv, HeadsInv, SenderOk, ReaderOk, BackLink, TokensInv;
    var at := s.senders[c].pc.at;
    WrittenSlotIsLive(cfg, s, c);
    ModAtMost(at, cfg.slotCount);
  }

  lemma StampLapAt(cfg: Config, s: State, c: nat, at: nat)
    requires Inv(cfg, s) && LapInv(cfg, s) && c < |s.senders| && s.senders[c].pc.Stamp?
    requires var s' := StampSlotStep(Unbounded, cfg, s, c).value;
             at < |s.own| <= at + cfg.slotCount && !Published(s'.log, s.own, at)
    ensures var s' := StampSlotStep(Unbounded, cfg, s, c).value;
            s'.slots[at % cfg.slotCount].stamp == if at >= cfg.slotCount then at + 1 - cfg.slotCount else 0
  {
    hide HeadsInv, ReaderOk, BackLink, TokensInv, MemInv;
    var pc := s.senders[c].pc;
    var s' := StampSlotStep(Unbounded, cfg, s, c).value;
    assert SenderOk(cfg, s.log, s.own, s.slots, s.heads, c, s.senders[c]);
    OneMorePublished(cfg, s.log, s.own, pc.m, s'.log[pc.m], pc.at, at);
    NoClash(cfg, s, c, at);
  }

  lemma StampLap(cfg: Config, s: State, c: nat)
    requires Inv(cfg, s) && LapInv(cfg, s) && c < |s.senders| && s.senders[c].pc.Stamp?
    ensures var r := StampSlotStep(Unbounded, cfg, s, c); r.Some? && r.value.Shaped(cfg) && LapInv(cfg, r.value)
  {
    StampNext(cfg, s, c);
    var pc := s.senders[c].pc;
    var s' := StampSlotStep(Unbounded, cfg, s, c).value;
    WrittenSlotIsLive(cfg, s, c);
    StampLapParts(cfg, s, c);
    forall at | 0 <= at < |s.own| <= at + cfg.slotCount && !Published(s'.log, s.own, at)
      ensures s'.slots[at % cfg.slotCount].stamp == if at >= cfg.slotCount then at + 1 - cfg.slotCount else 0
    {
      StampLapAt(cfg, s, c, at);
    }
  }

  lemma PostLap(cfg: Config, s: State, c: nat)
    requires Inv(cfg, s) && LapInv(cfg, s) && c < |s.senders|
    ensures var r := PostSemStep(cfg, s, c); r.Some? ==> r.value.Shaped(cfg) && LapInv(cfg, r.value)
  {
    hide LogInv, MemInv, HeadsInv, SenderOk, BackLink, ReaderOk, LapInv;
    PostSemKeeps(cfg, s, c);
    var r := PostSemStep(cfg, s, c);
    if r.Some? {
      LapFrame(cfg, s, r.value);
    }
  }

  lemma StepLap(cfg: Config, s: State, a: Action)
    requires Inv(cfg, s) && AllLive(s.log) && LapInv(cfg, s) && !a.Kill?
    ensures var r := Next(Unbounded, cfg, s, a); r.Some? ==> r.value.Shaped(cfg) && LapInv(cfg, r.value)
  {
    hide LogInv, MemInv, HeadsInv, SenderOk, BackLink, ReaderOk, TokensInv, LapInv, Absorb, Piece, Overwrite;
    NextShaped(cfg, s, a);
    var r := Next(Unbounded, cfg, s, a);
    if r.Some? {
      if a.TryCas? && r.value.log != s.log {
        CasLap(cfg, s, a.c);
      } else if a.StampSlot? {
        StampLap(cfg, s, a.c);
      } else if a.PostSem? {
        PostLap(cfg, s, a.c);
      } else {
        LapFrame(cfg, s, r.value);
      }
    }
  }

  lemma InitLap(cfg: Config)
    requires cfg.Valid()
    ensures Init(cfg).Shaped(cfg) && LapInv(cfg, Init(cfg))
  {
  }

  lemma {:induction false} HealthyIsFresh(cfg: Config, tr: seq<State>, acts: seq<Action>, n: nat)
    requires Run(Unbounded, cfg, tr, acts) && cfg.Valid() && PowerOfTwo(cfg.slotCount) && Healthy(acts) && n < |tr|
    ensures LapInv(cfg, tr[n]) && StampsFresh(tr[n])
  {
    hide Inv, Next, LapInv, StampsFresh, Init;
    RunKeeps(cfg, tr, acts, n);
    if n == 0 {
      InitLap(cfg);
    } else {
      HealthyIsFresh(cfg, tr, acts, n - 1);
      RunKeeps(cfg, tr, acts, n - 1);
      HealthyIsLive(cfg, tr, acts, n - 1);
      assert StepAt(Unbounded, cfg, tr, acts, n - 1);
      StepLap(cfg, tr[n - 1], acts[n - 1]);
    }
    LapFresh(cfg, tr[n]);
  }
}
