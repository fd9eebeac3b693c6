/**
 * The sequential code of StreamShmCreator over one shared ring: in-place arrays, the loops of the source, and a
 * ghost state of the transition system that every method moves by the system's own steps.
 */
module StreamShm {
  import opened Bytes
  import opened Slicing
  import opened Options
  import opened Ring
  import opened RingInv
  import opened RingTheorems
  import opened RingWrap
  import opened SendRuns
  import opened RecvRuns
  import opened ReaderSlots

  const INVALID_READER_INDEX: nat := 0xFF

  ghost predicate JoinedFrom(cfg: Config, s: State, s': State, i: nat) {
    s.Shaped(cfg) && i < MAX_READER_COUNT && s' == Joined(cfg, s, i)
  }

  /** What the memory would have to hold to show `s`. */
  ghost predicate MirroredBy(tail: nat, heads: seq<nat>, sems: seq<nat>, slots: seq<Slot>, s: State) {
    && |heads| == |sems| == |s.heads| == |s.tokens| == MAX_READER_COUNT && |slots| == |s.slots|
    && tail == W(s.tail)
    && (forall i :: 0 <= i < MAX_READER_COUNT ==> heads[i] == W(s.heads[i]) && sems[i] == s.tokens[i])
    && (forall p :: 0 <= p < |slots| ==> slots[p] == WrapSlot(s.slots[p]))
  }

  /** The shared memory of one channel. m_flag is its two bits, m_reader_flag the set of its bits. */
  class RingHeader {
    const slotSize: nat
    const slotCount: nat
    const sem: array<nat>
    const readerHead: array<nat>
    const slots: array<Slot>
    var tail: nat
    var canSend: bool
    var canRecv: bool
    var readerFlag: set<nat>
    ghost var st: State

    ghost predicate Shape()
      reads this
    {
      && sem != readerHead
      && sem.Length == readerHead.Length == MAX_READER_COUNT
      && slots.Length == slotCount
      && 0 < slotCount < U32
      && (forall r :: r in readerFlag ==> r < MAX_READER_COUNT)
    }

    ghost function Cfg(): Config
      reads this
    {
      Config(slotCount, slotSize, readerFlag)
    }

    /** The memory is the ghost state seen modulo 2^32. */
    ghost predicate Mirrors()
      reads this, sem, readerHead, slots
      requires Shape() && st.Shaped(Cfg())
    {
      && tail == W(st.tail)
      && (forall i :: 0 <= i < MAX_READER_COUNT ==> readerHead[i] == W(st.heads[i]) && sem[i] == st.tokens[i])
      && (forall p :: 0 <= p < slotCount ==> slots[p] == WrapSlot(st.slots[p]))
    }

    ghost predicate Linked()
      reads this, sem, readerHead, slots
    {
      Shape() && PowerOfTwo(slotCount) && Inv(Cfg(), st) && Mirrors()
    }

    ghost predicate Valid()
      reads this, sem, readerHead, slots
    {
      Linked() && Quiet(Cfg(), st)
    }

    /** create_shm(true) on zeroed pages: no reader yet, both directions enabled. */
    constructor (size: nat, count: nat)
      requires size >= 6 && PowerOfTwo(count)
      ensures Valid() && canSend && canRecv && readerFlag == {} && slotSize == size && slotCount == count
      ensures st == Init(Config(count, size, {}))
      ensures fresh(sem) && fresh(readerHead) && fresh(slots)
    {
      slotSize := size;
      slotCount := count;
      sem := new nat[MAX_READER_COUNT](_ => 0);
      readerHead := new nat[MAX_READER_COUNT](_ => 0);
      slots := new Slot[count](_ => Slot(0, 0, 0, seq(size, _ => 0)));
      tail := 0;
      canSend := true;
      canRecv := true;
      readerFlag := {};
      st := Init(Config(count, size, {}));
      new;
      FreshHeader(this);
    }

    method SlowestHead(mask: set<nat>, t: nat) returns (slow: nat)
      requires Shape() && t < U32 && forall r :: r in mask ==> r < MAX_READER_COUNT
      requires forall i :: 0 <= i < MAX_READER_COUNT ==> readerHead[i] < U32
      ensures Slowest(readerHead[..], mask, t, slow)
      ensures slow < U32
    {
      slow := t;
      var maxUsed := 0;
      var i := 0;
      while i < MAX_READER_COUNT
        invariant i <= MAX_READER_COUNT && slow < U32
        invariant maxUsed == Sub(Wrap32, t, slow)
        invariant forall r :: r in mask && r < i ==> Sub(Wrap32, t, readerHead[r]) <= maxUsed
        invariant slow == t || exists r :: r in mask && r < i && readerHead[..][r] == slow
      {
        if i in mask {
          var rh := readerHead[i];
          var used := (t - rh) % U32;
          if used > maxUsed {
            maxUsed := used;
            slow := rh;
            assert readerHead[..][i] == slow;
          }
        }
        i := i + 1;
      }
    }

    method IsEmpty() returns (empty: bool)
      requires Shape() && tail < U32 && forall i :: 0 <= i < MAX_READER_COUNT ==> readerHead[i] < U32
      ensures empty <==> forall r :: r in readerFlag ==> readerHead[r] == tail
    {
      if readerFlag == {} {
        return true;
      }
      var slow := SlowestHead(readerFlag, tail);
      empty := slow == tail;
      assert empty ==> forall r :: r in readerFlag ==> Sub(Wrap32, tail, readerHead[..][r]) == 0;
      if !empty {
        var r :| r in readerFlag && readerHead[..][r] == slow;
        assert readerHead[r] != tail;
      }
    }

    method IsFull() returns (full: bool)
      requires Shape() && tail < U32 && forall i :: 0 <= i < MAX_READER_COUNT ==> readerHead[i] < U32
      ensures full <==> slotCount <= 1 || readerFlag == {}
                        || exists r :: r in readerFlag && Sub(Wrap32, tail, readerHead[r]) >= slotCount - 1
    {
      if slotCount <= 1 || readerFlag == {} {
        return true;
      }
      var slow := SlowestHead(readerFlag, tail);
      full := (tail - slow) % U32 >= slotCount - 1;
      assert forall r :: r in readerFlag ==> Sub(Wrap32, tail, readerHead[..][r]) <= Sub(Wrap32, tail, slow);
      if full {
        var r :| r in readerFlag && readerHead[..][r] == slow;
        assert Sub(Wrap32, tail, readerHead[r]) >= slotCount - 1;
      }
    }

    /**
     * The first clear bit is taken and starts at the current tail; 0xFF when all eight are set. On a quiet ring the
     * invariant goes over to the new reader set; JoinerInStep says when the new reader's tokens count its messages.
     */
    method AllocReaderSlot() returns (index: nat)
      requires Shape()
      modifies this`readerFlag, this`st, readerHead
      ensures old(Valid()) && index != INVALID_READER_INDEX ==> Valid() && JoinedFrom(old(Cfg()), old(st), st, index)
      ensures Shape()
      ensures index == INVALID_READER_INDEX <==> forall i :: 0 <= i < MAX_READER_COUNT ==> i in old(readerFlag)
      ensures index == INVALID_READER_INDEX ==> readerFlag == old(readerFlag) && readerHead[..] == old(readerHead[..])
      ensures index != INVALID_READER_INDEX ==>
                && index < MAX_READER_COUNT && index !in old(readerFlag)
                && (forall i :: 0 <= i < index ==> i in old(readerFlag))
                && readerFlag == old(readerFlag) + {index}
                && readerHead[..] == old(readerHead[..])[index := tail]
    {
      hide Inv, Quiet, Posts, JoinedFrom, Mirrors, MirroredBy;
      index := 0;
      while index < MAX_READER_COUNT && index in readerFlag
        invariant index <= MAX_READER_COUNT
        invariant forall i :: 0 <= i < index ==> i in readerFlag
      {
        index := index + 1;
      }
      if index >= MAX_READER_COUNT {
        return INVALID_READER_INDEX;
      }
      ghost var quiet := Valid();
      if quiet {
        st := JoinRun(this, index);
      }
      readerHead[index] := tail;
      readerFlag := readerFlag + {index};
      if quiet {
        assert MirroredBy(tail, readerHead[..], sem[..], slots[..], st);
        AfterMembership(this);
      }
    }

    method FreeReaderSlot(index: nat)
      requires Shape()
      modifies this`readerFlag, this`st, sem
      ensures Shape() && readerFlag == old(readerFlag) - {index}
      ensures old(Valid()) && index < MAX_READER_COUNT ==> Valid() && st == Departed(old(st), index)
      ensures sem[..] == if index < MAX_READER_COUNT then old(sem[..])[index := old(sem[index]) + 1] else old(sem[..])
    {
      hide Inv, Quiet, Mirrors, MirroredBy;
      if index >= MAX_READER_COUNT {
        return;
      }
      ghost var quiet := Valid();
      if quiet {
        st := LeaveRun(this, index);
      }
      readerFlag := readerFlag - {index};
      sem[index] := sem[index] + 1;
      if quiet {
        assert MirroredBy(tail, readerHead[..], sem[..], slots[..], st);
        AfterMembership(this);
      }
    }
  }

  lemma FreshHeader(h: RingHeader)
    requires h.Shape() && h.readerFlag == {} && h.slotSize >= 6 && PowerOfTwo(h.slotCount)
    requires h.st == Init(h.Cfg()) && h.tail == 0
    requires forall i :: 0 <= i < MAX_READER_COUNT ==> h.readerHead[i] == 0 && h.sem[i] == 0
    requires forall p :: 0 <= p < h.slotCount ==> h.slots[p] == Slot(0, 0, 0, seq(h.slotSize, _ => 0))
    ensures h.Valid()
  {
    hide Inv;
    InvInit(h.Cfg());
  }

  lemma HeaderRange(h: RingHeader)
    requires h.Linked()
    ensures h.st.Shaped(h.Cfg()) && h.Mirrors()
    ensures h.tail < U32 && forall i :: 0 <= i < MAX_READER_COUNT ==> h.readerHead[i] < U32
  {
    hide LogInv, MemInv, HeadsInv, SenderOk, BackLink, ReaderOk, TokensInv;
  }

  lemma ShapeOf(cfg: Config, s: State)
    requires Inv(cfg, s)
    ensures s.Shaped(cfg)
  {
    hide LogInv, MemInv, HeadsInv, SenderOk, BackLink, ReaderOk, TokensInv;
  }

  lemma JoinRun(h: RingHeader, i: nat) returns (s': State)
    requires h.Valid() && i < MAX_READER_COUNT
    ensures h.Shape() && JoinedFrom(h.Cfg(), h.st, s', i) && PowerOfTwo(h.slotCount)
    ensures var cfg' := Config(h.slotCount, h.slotSize, h.readerFlag + {i});
            s'.Shaped(cfg') && Inv(cfg', s') && Quiet(cfg', s')
    ensures MirroredBy(h.tail, h.readerHead[..][i := h.tail], h.sem[..], h.slots[..], s')
  {
    hide Inv, Quiet, Posts;
    HeaderRange(h);
    JoinKeeps(h.Cfg(), h.st, i);
    s' := Joined(h.Cfg(), h.st, i);
    ShapeOf(h.Cfg().(readers := h.readerFlag + {i}), s');
  }

  lemma LeaveRun(h: RingHeader, i: nat) returns (s': State)
    requires h.Valid() && i < MAX_READER_COUNT
    ensures i < |h.st.tokens| && s' == Departed(h.st, i) && PowerOfTwo(h.slotCount)
    ensures var cfg' := Config(h.slotCount, h.slotSize, h.readerFlag - {i});
            s'.Shaped(cfg') && Inv(cfg', s') && Quiet(cfg', s')
    ensures MirroredBy(h.tail, h.readerHead[..], h.sem[..][i := h.sem[i] + 1], h.slots[..], s')
  {
    hide Inv, Quiet;
    HeaderRange(h);
    LeaveKeeps(h.Cfg(), h.st, i);
    s' := Departed(h.st, i);
    ShapeOf(h.Cfg().(readers := h.readerFlag - {i}), s');
  }

  lemma AfterMembership(h: RingHeader)
    requires h.Shape() && PowerOfTwo(h.slotCount) && h.st.Shaped(h.Cfg()) && Inv(h.Cfg(), h.st) && Quiet(h.Cfg(), h.st)
    requires MirroredBy(h.tail, h.readerHead[..], h.sem[..], h.slots[..], h.st)
    ensures h.Valid()
  {
    hide Inv, Quiet;
  }

  /** The uint32 backlog the code computes is the true one. */
  lemma TrueBacklog(h: RingHeader, r: nat)
    requires h.Linked() && r in h.readerFlag
    ensures h.st.heads[r] <= h.st.tail
    ensures Sub(Wrap32, h.tail, h.readerHead[..][r]) == h.st.tail - h.st.heads[r] < h.slotCount
  {
    hide LogInv, MemInv, SenderOk, BackLink, ReaderOk, TokensInv, Settled;
    assert r in h.Cfg().readers;
    WrapSub(h.st.tail, h.st.heads[r]);
  }

  lemma SlowestDecides(h: RingHeader, slow: nat, need: nat)
    requires h.Linked() && Slowest(h.readerHead[..], h.readerFlag, h.tail, slow) && h.readerFlag != {} && need > 0
    ensures var used := Sub(Wrap32, h.tail, slow);
            !(used >= h.slotCount - 1 || h.slotCount - 1 - used < need) <==> Room(h.Cfg(), h.st, need)
  {
    hide Inv;
    HeaderRange(h);
    forall r | r in h.readerFlag
      ensures h.st.heads[r] <= h.st.tail
      ensures Sub(Wrap32, h.tail, h.readerHead[..][r]) == h.st.tail - h.st.heads[r]
    {
      TrueBacklog(h, r);
    }
    var x :| x in h.readerFlag;
  }

  /** is_full says exactly that a one-slot message would be refused. */
  lemma FullMeansNoRoom(h: RingHeader)
    requires h.Linked()
    ensures (h.slotCount <= 1 || h.readerFlag == {}
             || exists r :: r in h.readerFlag && Sub(Wrap32, h.tail, h.readerHead[..][r]) >= h.slotCount - 1)
       <==> (h.readerFlag == {} || !Room(h.Cfg(), h.st, 1))
  {
    hide Inv;
    HeaderRange(h);
    forall r | r in h.readerFlag
      ensures h.st.heads[r] <= h.st.tail
      ensures Sub(Wrap32, h.tail, h.readerHead[..][r]) == h.st.tail - h.st.heads[r]
    {
      TrueBacklog(h, r);
    }
    if h.readerFlag != {} {
      var x :| x in h.readerFlag;
      assert h.st.heads[x] <= h.st.tail;
    }
  }

  /** is_empty says exactly that no active reader has anything left to read. */
  lemma EmptyMeansDrained(h: RingHeader)
    requires h.Linked()
    ensures (forall r :: r in h.readerFlag ==> h.readerHead[r] == h.tail)
       <==> (forall r :: r in h.readerFlag ==> h.st.heads[r] == h.st.tail)
  {
    hide Inv;
    HeaderRange(h);
    forall r | r in h.readerFlag
      ensures h.readerHead[r] == h.tail <==> h.st.heads[r] == h.st.tail
    {
      TrueBacklog(h, r);
      assert h.readerHead[..][r] == h.readerHead[r];
    }
  }

  lemma SentInFull(h: RingHeader, s0: State, s1: State, s2: State, msg: Message)
    requires h.Linked() && h.st.Shaped(h.Cfg()) && s0.Shaped(h.Cfg()) && s1.Shaped(h.Cfg()) && s2.Shaped(h.Cfg())
    requires Quiet(h.Cfg(), s0) && Reserved(h.Cfg(), s0, s1, msg)
    requires Written(h.Cfg(), s1, s2, |s0.senders|, |s0.log|, msg, h.Cfg().Need(msg), |msg.data|)
    requires Posted(h.Cfg(), s2, h.st, |s0.senders|, |s0.log|, MAX_READER_COUNT)
    requires h.st.senders[|s0.senders|].pc == Returned(|s0.log|)
    ensures h.Valid() && Sent(h.Cfg(), s0, h.st, msg)
  {
    hide Inv;
    var c, m := |s0.senders|, |s0.log|;
    assert h.st.log == s0.log + [h.st.log[m]];
  }

  lemma AfterReserve(h: RingHeader, before: State)
    requires h.Shape() && PowerOfTwo(h.slotCount) && Inv(h.Cfg(), h.st) && before.Shaped(h.Cfg())
    requires h.st.heads == before.heads && h.st.tokens == before.tokens && h.st.slots == before.slots
    requires h.tail == W(h.st.tail)
    requires forall i :: 0 <= i < MAX_READER_COUNT ==>
                  h.readerHead[i] == W(before.heads[i]) && h.sem[i] == before.tokens[i]
    requires forall p :: 0 <= p < h.slotCount ==> h.slots[p] == WrapSlot(before.slots[p])
    ensures h.Linked()
  {
  }

  lemma AfterSlot(h: RingHeader, before: State, c: nat)
    requires h.Shape() && PowerOfTwo(h.slotCount) && Inv(h.Cfg(), h.st) && before.Shaped(h.Cfg())
    requires c < |before.senders| && before.senders[c].pc.Fill? && OneSlot(h.Cfg(), before, c) == Some(h.st)
    requires h.tail == W(h.st.tail)
    requires forall i :: 0 <= i < MAX_READER_COUNT ==>
                  h.readerHead[i] == W(before.heads[i]) && h.sem[i] == before.tokens[i]
    requires var pc := before.senders[c].pc;
             var p := pc.at % h.slotCount;
             && (forall q :: 0 <= q < h.slotCount && q != p ==> h.slots[q] == WrapSlot(before.slots[q]))
             && pc.idx <= |before.senders[c].msg.data|
             && h.slots[p] == Slot(W(pc.at + 1), pc.k,
                                   if pc.k == 0 then h.Cfg().Need(before.senders[c].msg) else before.slots[p].count,
                                   Overwrite(before.slots[p].data, Piece(h.slotSize, before.senders[c].msg,
                                             pc.k == 0, pc.idx)))
    ensures h.Linked()
  {
    hide LogInv, MemInv, HeadsInv, SenderOk, BackLink, ReaderOk, TokensInv, Piece, Overwrite;
  }

  lemma AfterPost(h: RingHeader, before: State, c: nat, i: nat)
    requires h.Shape() && PowerOfTwo(h.slotCount) && Inv(h.Cfg(), h.st) && before.Shaped(h.Cfg())
    requires c < |before.senders| && PostSemStep(h.Cfg(), before, c) == Some(h.st)
    requires before.senders[c].pc.Post? && before.senders[c].pc.i == i < MAX_READER_COUNT
    requires h.tail == W(before.tail)
    requires forall r :: 0 <= r < MAX_READER_COUNT ==> h.readerHead[r] == W(before.heads[r])
    requires forall r :: 0 <= r < MAX_READER_COUNT ==>
               h.sem[r] == before.tokens[r] + (if r == i && r in h.readerFlag then 1 else 0)
    requires forall p :: 0 <= p < h.slotCount ==> h.slots[p] == WrapSlot(before.slots[p])
    ensures h.Linked()
  {
    hide LogInv, MemInv, HeadsInv, SenderOk, BackLink, ReaderOk, TokensInv;
  }

  ghost predicate AtPass(s: State, i: nat, head: nat, asm: Assembly)
  {
    i < |s.readers| && head == W(s.readers[i].head) && asm == s.readers[i].asm
  }

  function ScanLimit(head: nat, tail: nat): nat {
    Min(Sub(Wrap32, tail, head), MAX_SLICE_COUNT)
  }

  lemma EndOfScan(head: nat, tail: nat)
    requires head < U32 && tail < U32
    ensures ScanLimit(head, tail) <= MAX_SLICE_COUNT
    ensures (if (tail - head) % U32 > MAX_SLICE_COUNT then (head + MAX_SLICE_COUNT) % U32 else tail)
         == (head + ScanLimit(head, tail)) % U32
  {
  }

  lemma SameOffset(head: nat, n: nat, left: nat)
    requires n <= left <= MAX_SLICE_COUNT
    ensures (head + n) % U32 == (head + left) % U32 <==> n == left
  {
    var d := left - n;
    assert (head + left) % U32 == ((head + n) % U32 + d) % U32;
  }

  lemma ScanOpens(cfg: Config, slots: seq<Slot>, at: nat, left: nat)
    requires cfg.slotCount > 0 && |slots| == cfg.slotCount
    ensures ScanLength(Wrap32, cfg, slots, at, left) ==
            if left == 0 || slots[at % cfg.slotCount].stamp == (at + 1) % U32 then 0
            else 1 + ScanLength(Wrap32, cfg, slots, (at + 1) % U32, left - 1)
  {
  }

  lemma SumMod(head: nat, n: nat)
    ensures ((head + n) % U32 + 1) % U32 == (head + (n + 1)) % U32
  {
  }

  ghost predicate Stamped(s: State, count: nat, at: nat)
    requires 0 < count == |s.slots|
  {
    s.slots[at % count].stamp == at + 1
  }

  /** What the locals of a recv that is over amount to. */
  ghost predicate Outcome(cfg: Config, s0: State, i: nat, asm: Assembly)
    requires s0.Shaped(cfg) && i < MAX_READER_COUNT
  {
    var h0 := s0.readers[i].head;
    if Ready(cfg, s0, h0) then
      && !(asm.count > 0 && asm.done < asm.count) && asm.idx == |asm.buf| > 0
      && Message(asm.id, asm.buf) == s0.log[s0.own[h0].m].msg
    else asm.count == 0 && asm.idx == 0
  }

  lemma LoopLag(cfg: Config, s: State, i: nat)
    requires Inv(cfg, s) && i in cfg.readers
    ensures s.readers[i].head <= |s.own| == s.tail < s.readers[i].head + cfg.slotCount
  {
    hide LogInv, MemInv, SenderOk, BackLink, TokensInv, AsmOk, Settled, Complete, Turn;
    assert ReaderOk(cfg, s.log, s.own, s.heads[i], s.readers[i]);
  }

  /** The comparisons of one pass, made on uint32 values, are the true ones. */
  lemma PassFacts(h: RingHeader, s0: State, i: nat)
    requires h.Linked() && i in h.readerFlag && Readable(h.st, i) && s0.Shaped(h.Cfg()) && h.st.Shaped(h.Cfg())
    requires InRecv(h.Cfg(), s0, h.st, i)
    ensures i < MAX_READER_COUNT && h.st.readers[i].pc == Loop
    ensures var head := h.st.readers[i].head;
            && (W(head) == h.tail <==> head == h.st.tail)
            && W(head) % h.slotCount == head % h.slotCount
            && (W(head) + 1) % U32 == W(head + 1)
            && var slot := h.st.slots[head % h.slotCount];
               && h.slots[head % h.slotCount] == WrapSlot(slot) && |slot.data| == h.slotSize >= 6
               && (head != h.st.tail ==> (W(slot.stamp) == W(head + 1) <==> slot.stamp == head + 1))
               && Absorb(h.slotSize, h.st.readers[i].asm, WrapSlot(slot)) == Taken(h.Cfg(), h.st, i)
  {
    hide LogInv, MemInv, HeadsInv, SenderOk, BackLink, ReaderOk, TokensInv, Absorb, Tells, Accepts;
    var head, cfg := h.st.readers[i].head, h.Cfg();
    ReaderNear(cfg, h.st, i);
    WrapSub(head, h.st.tail);
    WrapIndex(head, h.slotCount);
    WrapAdd(head, 1);
    LoopLag(cfg, h.st, i);
    AbsorbIgnoresStamp(h.slotSize, h.st.readers[i].asm, h.st.slots[head % h.slotCount]);
    if head != h.st.tail {
      StampTestAgrees(h.st.slots, head);
      AcceptsMeans(h.st.slots, head);
    }
  }

  lemma MessageCame(cfg: Config, s0: State, s: State, i: nat)
    requires s0.Shaped(cfg) && s.Shaped(cfg) && i < MAX_READER_COUNT
    requires var asm := Taken(cfg, s, i);
             asm.count > 0 && (asm.done >= asm.count ==>
               Ready(cfg, s0, s0.readers[i].head) && asm.idx == |asm.buf| > 0
               && Message(asm.id, asm.buf) == s0.log[s0.own[s0.readers[i].head].m].msg)
    ensures var asm := Taken(cfg, s, i); asm.done >= asm.count ==> Outcome(cfg, s0, i, asm)
  {
  }

  /** After a step of reader `i` alone the memory still mirrors the ghost state, once its head is stored. */
  lemma AfterRead(h: RingHeader, before: State, i: nat)
    requires h.Shape() && PowerOfTwo(h.slotCount) && Inv(h.Cfg(), h.st) && before.Shaped(h.Cfg())
             && i < MAX_READER_COUNT
    requires h.st.tail == before.tail && h.st.slots == before.slots && h.st.tokens == before.tokens
    requires h.st.heads == before.heads[i := h.st.heads[i]] && Readable(before, i)
    requires i < |before.readers| && h.st.readers[i].head >= before.readers[i].head
    requires h.tail == W(before.tail)
    requires forall r :: 0 <= r < MAX_READER_COUNT ==>
               h.sem[r] == before.tokens[r] && h.readerHead[r] == W(if r == i then h.st.heads[i] else before.heads[r])
    requires forall p :: 0 <= p < h.slotCount ==> h.slots[p] == WrapSlot(before.slots[p])
    ensures h.Linked() && Readable(h.st, i)
  {
    hide LogInv, MemInv, HeadsInv, SenderOk, BackLink, ReaderOk, TokensInv;
  }

  lemma StallScan(h: RingHeader, i: nat)
    requires h.Linked() && i in h.readerFlag && Readable(h.st, i) && h.st.Shaped(h.Cfg())
    ensures var head := h.st.readers[i].head;
            (W(head) + ScanLength(Wrap32, h.Cfg(), h.slots[..], W(head),
                                  Min(Sub(Wrap32, h.tail, W(head)), MAX_SLICE_COUNT))) % U32
            == W(head + Ahead(h.Cfg(), h.st, i))
  {
    hide LogInv, MemInv, HeadsInv, SenderOk, BackLink, ReaderOk, TokensInv, ScanLength, Tells;
    var head, cfg := h.st.readers[i].head, h.Cfg();
    LoopLag(cfg, h.st, i);
    WrapSub(h.st.tail, head);
    assert h.slots[..] == WrapSlots(h.st.slots);
    ScanWraps(cfg, h.st.slots, head, Min(Sub(Unbounded, h.st.tail, head), MAX_SLICE_COUNT));
    WrapAdd(head, Ahead(cfg, h.st, i));
  }

  lemma NothingCame(cfg: Config, s0: State, i: nat, asm: Assembly)
    requires s0.Shaped(cfg) && i < MAX_READER_COUNT
    requires !Ready(cfg, s0, s0.readers[i].head) && asm.count == 0 && asm.idx == 0
    ensures Outcome(cfg, s0, i, asm)
  {
    hide Ready;
  }

  /** What recv promises: the message at the head if it is fully published, nothing otherwise. */
  ghost predicate ReturnedOf(cfg: Config, s0: State, s: State, i: nat, rc: nat, msg: Message)
    requires s0.Shaped(cfg) && s.Shaped(cfg) && i < MAX_READER_COUNT
  {
    var h0 := s0.readers[i].head;
    && Received(cfg, s0, s, i)
    && (rc > 0 <==> Ready(cfg, s0, h0))
    && (rc > 0 ==> rc == |msg.data| && msg == s0.log[s0.own[h0].m].msg)
  }

  lemma BeginRecv(h: RingHeader, i: nat)
    requires h.Valid() && i in h.readerFlag && h.sem[i] > 0
    ensures i < MAX_READER_COUNT && h.st.Shaped(h.Cfg()) && h.st.readers[i].pc == Idle && h.st.tokens[i] > 0
    ensures i in h.Cfg().readers
  {
    hide LogInv, MemInv, HeadsInv, SenderOk, BackLink, ReaderOk, TokensInv, AllEnded;
  }

  lemma AfterWait(h: RingHeader, before: State, i: nat)
    requires h.Shape() && PowerOfTwo(h.slotCount) && Inv(h.Cfg(), h.st) && before.Shaped(h.Cfg())
             && i in h.Cfg().readers
    requires WaitStep(h.Cfg(), before, i) == Some(h.st) && Readable(before, i)
    requires h.tail == W(before.tail)
    requires forall r :: 0 <= r < MAX_READER_COUNT ==>
               h.sem[r] == before.tokens[r] - (if r == i then 1 else 0) && h.readerHead[r] == W(before.heads[r])
    requires forall p :: 0 <= p < h.slotCount ==> h.slots[p] == WrapSlot(before.slots[p])
    ensures h.Linked() && Readable(h.st, i)
  {
    hide LogInv, MemInv, HeadsInv, SenderOk, BackLink, ReaderOk, TokensInv;
  }

  /** The recv is over: the ring is quiet again and the head is already published. */
  lemma EndRecv(h: RingHeader, s0: State, i: nat)
    requires h.Linked() && i in h.readerFlag && s0.Shaped(h.Cfg()) && h.st.Shaped(h.Cfg())
    requires Quiet(h.Cfg(), s0) && Received(h.Cfg(), s0, h.st, i)
    ensures h.Valid() && h.readerHead[i] == W(h.st.readers[i].head)
  {
    hide Inv;
  }

  lemma OutcomeIs(cfg: Config, s0: State, s: State, i: nat, asm: Assembly)
    requires s0.Shaped(cfg) && s.Shaped(cfg) && i < MAX_READER_COUNT
    requires Outcome(cfg, s0, i, asm) && Received(cfg, s0, s, i)
    ensures !(asm.count > 0 && asm.done < asm.count) && ReturnedOf(cfg, s0, s, i, asm.idx, Message(asm.id, asm.buf))
  {
    hide Received;
  }

  lemma StoredAgain(h: RingHeader, i: nat)
    requires h.Valid() && i in h.readerFlag && h.readerHead[i] == W(h.st.readers[i].head)
    ensures i < MAX_READER_COUNT && h.readerHead[..][i := h.readerHead[i]] == h.readerHead[..]
  {
  }

  /** One process's handle on the shared memory. */
  class StreamShmCreator {
    const hdr: RingHeader
    const slotTimeout: nat
    var readerIndex: nat
    var localHead: nat
    /** The environment's clock, as of the last time it was read. */
    var clock: nat

    constructor (h: RingHeader, timeout: nat)
      ensures hdr == h && readerIndex == INVALID_READER_INDEX && localHead == 0 && slotTimeout == timeout
    {
      hdr := h;
      slotTimeout := timeout;
      readerIndex := INVALID_READER_INDEX;
      localHead := 0;
      clock := 0;
    }

    /** A reader starts at the head that was published for its index when the index was handed out. */
    method SetReaderIndex(index: nat)
      requires hdr.Shape()
      modifies this`readerIndex, this`localHead
      ensures readerIndex == index
      ensures localHead == if index < MAX_READER_COUNT then hdr.readerHead[index] else old(localHead)
    {
      readerIndex := index;
      if index >= MAX_READER_COUNT {
        return;
      }
      localHead := hdr.readerHead[index];
    }

    /** The loop around the exchange; it fails spuriously `spurious` times before it is let through. */
    method Reserve(msg: Message, need: nat, spurious: nat) returns (ok: bool, at: nat)
      requires hdr.Valid() && hdr.Cfg().Sendable(msg) && need == hdr.Cfg().Need(msg) <= MAX_SLICE_COUNT
      modifies hdr`tail, hdr`st
      ensures ok <==> hdr.readerFlag != {} && Room(hdr.Cfg(), old(hdr.st), need)
      ensures !ok ==> hdr.tail == old(hdr.tail) && hdr.st == old(hdr.st)
      ensures ok ==> hdr.Linked() && at == old(hdr.tail) && Reserved(hdr.Cfg(), old(hdr.st), hdr.st, msg)
    {
      hide Inv, Quiet, Room, Slowest;
      HeaderRange(hdr);
      NeedBounds(hdr.slotSize, |msg.data|);
      var failures := spurious;
      while true
        invariant hdr.tail == old(hdr.tail) && hdr.st == old(hdr.st) && hdr.Linked()
        decreases failures
      {
        var mask := hdr.readerFlag;
        if mask == {} {
          return false, 0;
        }
        at := hdr.tail;
        var slow := hdr.SlowestHead(mask, at);
        var used := (at - slow) % U32;
        SlowestDecides(hdr, slow, need);
        if used >= hdr.slotCount - 1 || hdr.slotCount - 1 - used < need {
          return false, 0;
        }
        if failures == 0 {
          break;
        }
        failures := failures - 1;
      }
      ghost var before := hdr.st;
      ghost var s' := ReserveRun(hdr.Cfg(), hdr.st, msg);
      hdr.st := s';
      hdr.tail := (hdr.tail + need) % U32;
      WrapAdd(before.tail, need);
      AfterReserve(hdr, before);
      ok := true;
    }

    /** One pass of the write loop: bytes, count (first slice only), id and at last the stamp. */
    method WriteSlot(msg: Message, need: nat, seqNo: nat, sliceId: nat, idx: nat) returns (copied: nat)
      requires hdr.Shape() && hdr.slotSize >= 6 && idx <= |msg.data| && 2 + |msg.data| < U32
      requires |hdr.slots[seqNo % hdr.slotCount].data| == hdr.slotSize
      modifies hdr.slots
      ensures copied == Copied(hdr.slotSize, |msg.data|, sliceId == 0, idx)
      ensures var p := seqNo % hdr.slotCount;
              && (forall q :: 0 <= q < hdr.slotCount && q != p ==> hdr.slots[q] == old(hdr.slots[q]))
              && hdr.slots[p] == Slot(W(seqNo + 1), sliceId, if sliceId == 0 then need else old(hdr.slots[p].count),
                                      Overwrite(old(hdr.slots[p].data), Piece(hdr.slotSize, msg, sliceId == 0, idx)))
    {
      hide Piece, Overwrite, EncodeU32, EncodeU16;
      var p := seqNo % hdr.slotCount;
      var len := |msg.data|;
      if sliceId == 0 {
        FirstWrite(hdr.slotSize, msg, hdr.slots[p].data, idx);
        var d := EncodeU32(2 + len) + hdr.slots[p].data[4..];
        d := d[..4] + EncodeU16(msg.id) + d[6..];
        copied := Min(len, hdr.slotSize - 6);
        d := d[..6] + msg.data[..copied] + d[6 + copied..];
        hdr.slots[p] := hdr.slots[p].(data := d);
        hdr.slots[p] := hdr.slots[p].(count := need);
      } else {
        NextWrite(hdr.slotSize, msg, hdr.slots[p].data, idx);
        copied := Min(len - idx, hdr.slotSize);
        hdr.slots[p] := hdr.slots[p].(data := msg.data[idx..idx + copied] + hdr.slots[p].data[copied..]);
      }
      hdr.slots[p] := hdr.slots[p].(id := sliceId);
      hdr.slots[p] := hdr.slots[p].(stamp := (seqNo + 1) % U32);
    }

    /** The loop that cuts the message into its slots, stamping each one when it is complete. */
    method WriteSlots(msg: Message, need: nat, at: nat, ghost c: nat, ghost m: nat)
      requires hdr.Linked() && hdr.st.Shaped(hdr.Cfg())
      requires need == hdr.Cfg().Need(msg) && 6 + |msg.data| < U32
      requires Written(hdr.Cfg(), hdr.st, hdr.st, c, m, msg, 0, 0) && at == W(hdr.st.log[m].start)
      modifies hdr`st, hdr.slots
      ensures hdr.Linked()
      ensures Written(hdr.Cfg(), old(hdr.st), hdr.st, c, m, msg, need, |msg.data|)
    {
      hide Inv, Overwrite, Piece, FillSlotStep, StampSlotStep, OneSlot, Offset, Written;
      var seqNo, idx, sliceId, first, len := at, 0, 0, true, |msg.data|;
      HeaderRange(hdr);
      WrittenStart(hdr.Cfg(), hdr.st, c, m, msg);
      ghost var cfg, s0, start := hdr.Cfg(), hdr.st, hdr.st.log[m].start;
      while first || idx < len
        invariant first <==> sliceId == 0
        invariant sliceId <= need && idx == Offset(hdr.slotSize, len, sliceId)
        invariant hdr.Linked() && cfg == hdr.Cfg() && hdr.st.Shaped(cfg)
        invariant seqNo == W(start + sliceId)
        invariant Written(cfg, s0, hdr.st, c, m, msg, sliceId, idx)
        decreases need - sliceId
      {
        LoopRunsNeedTimes(hdr.slotSize, len, sliceId);
        WrapIndex(start + sliceId, hdr.slotCount);
        WrapAdd(start + sliceId, 1);
        WrittenAt(cfg, s0, hdr.st, c, m, msg, sliceId, idx);
        ghost var before := hdr.st;
        var copied := WriteSlot(msg, need, seqNo, sliceId, idx);
        hdr.st := OneSlotRun(cfg, hdr.st, c);
        AfterSlot(hdr, before, c);
        WrittenNext(cfg, s0, before, hdr.st, c, m, msg, sliceId, idx);
        first, seqNo, sliceId, idx := false, (seqNo + 1) % U32, sliceId + 1, idx + copied;
        HeaderRange(hdr);
        if copied == 0 && idx >= len {
          break;
        }
      }
      LoopRunsNeedTimes(hdr.slotSize, len, sliceId);
    }

    /** post_reader_sems: one token for every reader of the mask. */
    method PostReaderSems(mask: set<nat>, ghost c: nat, ghost m: nat)
      requires hdr.Linked() && mask == hdr.readerFlag
      requires Posted(hdr.Cfg(), hdr.st, hdr.st, c, m, 0) && hdr.st.senders[c].pc == Post(m, 0)
      modifies hdr`st, hdr.sem
      ensures hdr.Linked()
      ensures Posted(hdr.Cfg(), old(hdr.st), hdr.st, c, m, MAX_READER_COUNT) && hdr.st.senders[c].pc == Returned(m)
    {
      hide Inv, Posted;
      HeaderRange(hdr);
      ghost var cfg, s0 := hdr.Cfg(), hdr.st;
      PostedAt(cfg, s0, s0, c, m, 0);
      var i := 0;
      while i < MAX_READER_COUNT
        invariant i <= MAX_READER_COUNT && hdr.Linked() && cfg == hdr.Cfg() && hdr.st.Shaped(cfg)
        invariant Posted(cfg, s0, hdr.st, c, m, i) && c < |hdr.st.senders| && hdr.st.senders[c].pc == Post(m, i)
      {
        ghost var before := hdr.st;
        PostRun(cfg, s0, before, c, m, i);
        if i in mask {
          hdr.sem[i] := hdr.sem[i] + 1;
        }
        hdr.st := PostSemStep(cfg, before, c).value;
        AfterPost(hdr, before, c, i);
        HeaderRange(hdr);
        i := i + 1;
      }
      PostRun(cfg, s0, hdr.st, c, m, MAX_READER_COUNT);
      hdr.st := PostSemStep(cfg, hdr.st, c).value;
    }

    /** send_impl after the reservation: write the slots, then post the readers. */
    method WriteAndPost(msg: Message, need: nat, at: nat, ghost s0: State)
      requires hdr.Linked() && s0.Shaped(hdr.Cfg()) && hdr.st.Shaped(hdr.Cfg()) && Quiet(hdr.Cfg(), s0)
      requires need == hdr.Cfg().Need(msg) && 6 + |msg.data| < U32 && at == W(s0.tail)
      requires Reserved(hdr.Cfg(), s0, hdr.st, msg)
      modifies hdr`st, hdr.slots, hdr.sem
      ensures hdr.Valid() && hdr.st.Shaped(hdr.Cfg()) && Sent(hdr.Cfg(), s0, hdr.st, msg)
    {
      hide Inv, Written, Posted, Sent, Quiet, Reserved;
      HeaderRange(hdr);
      ghost var cfg, s1 := hdr.Cfg(), hdr.st;
      ghost var c, m := |s0.senders|, |s0.log|;
      ReservedIsWritten(cfg, s0, s1, msg);
      WriteSlots(msg, need, at, c, m);
      HeaderRange(hdr);
      ghost var s2 := hdr.st;
      WrittenIsPosted(cfg, s1, s2, c, m, msg);
      PostReaderSems(hdr.readerFlag, c, m);
      HeaderRange(hdr);
      SentInFull(hdr, s0, s1, s2, msg);
    }

    /** send_impl from the loop on: reserve, write, post. */
    method SendSlices(msg: Message, need: nat, spurious: nat) returns (ok: bool)
      requires hdr.Valid() && hdr.Cfg().Sendable(msg) && need == hdr.Cfg().Need(msg) <= MAX_SLICE_COUNT
      modifies hdr`tail, hdr`st, hdr.slots, hdr.sem
      ensures hdr.Valid()
      ensures ok <==> hdr.readerFlag != {} && Room(hdr.Cfg(), old(hdr.st), need)
      ensures !ok ==> hdr.st == old(hdr.st)
      ensures ok ==> Sent(hdr.Cfg(), old(hdr.st), hdr.st, msg)
    {
      hide Inv, Room, Sent, Quiet, Reserved;
      HeaderRange(hdr);
      ghost var s0 := hdr.st;
      var at;
      ok, at := Reserve(msg, need, spurious);
      if ok {
        HeaderRange(hdr);
        WriteAndPost(msg, need, at, s0);
      }
    }

    /**
     * send and send_impl. A uint32 sum that would wrap is the caller's to avoid; everything else is refused with -1.
     */
    method Send(msg: Message, spurious: nat) returns (rc: int)
      requires hdr.Valid() && 6 + |msg.data| + hdr.slotSize - 1 < U32
      modifies hdr`tail, hdr`st, hdr.slots, hdr.sem
      ensures hdr.Valid()
      ensures rc == if Admitted(hdr.Cfg(), old(hdr.canSend), old(hdr.st), msg) then |msg.data| else -1
      ensures rc == -1 ==> hdr.st == old(hdr.st)
      ensures rc != -1 ==> Sent(hdr.Cfg(), old(hdr.st), hdr.st, msg)
    {
      hide Inv, Room, Sent, Quiet, NeedU32;
      HeaderRange(hdr);
      if |msg.data| == 0 || !hdr.canSend {
        return -1;
      }
      var need := NeedU32(hdr.slotSize, |msg.data|);
      NeedU32Exact(hdr.slotSize, |msg.data|);
      NeedBounds(hdr.slotSize, |msg.data|);
      if need == 0 || need > MAX_SLICE_COUNT {
        return -1;
      }
      var ok := SendSlices(msg, need, spurious);
      rc := if ok then |msg.data| else -1;
    }

    // ----- recv -----

    /** This process is reader `i` of the channel and stands where its published head says. */
    ghost predicate Reading()
      reads this, hdr, hdr.sem, hdr.readerHead, hdr.slots
    {
      && readerIndex in hdr.readerFlag && hdr.Linked()
      && localHead == W(hdr.st.readers[readerIndex].head)
    }

    /** Between two passes of a recv that began in `s0`, with the locals `head` and `asm`. */
    ghost predicate Passing(s0: State, head: nat, asm: Assembly)
      reads this, hdr, hdr.sem, hdr.readerHead, hdr.slots
    {
      && hdr.Linked() && readerIndex in hdr.readerFlag && Readable(hdr.st, readerIndex)
      && s0.Shaped(hdr.Cfg()) && Quiet(hdr.Cfg(), s0) && hdr.st.Shaped(hdr.Cfg())
      && InRecv(hdr.Cfg(), s0, hdr.st, readerIndex) && AtPass(hdr.st, readerIndex, head, asm)
    }

    /** Each reading of the clock is later than the one before. */
    method GetTimestamp() returns (now: nat)
      modifies this`clock
      ensures now == clock > old(clock)
    {
      now :| now > clock;
      clock := now;
    }

    /** What one pass does with a published slot; the locals of recv_impl are one Assembly. */
    method TakeSlot(slot: Slot, a: Assembly) returns (b: Assembly)
      requires hdr.slotSize >= 6 && |slot.data| == hdr.slotSize
      ensures b == Absorb(hdr.slotSize, a, slot)
    {
      hide DecodeU32, DecodeU16;
      var count, done, idx, buf, id := a.count, a.done, a.idx, a.buf, a.id;
      if count == 0 {
        count := slot.count;
        var total := DecodeU32(slot.data);
        if slot.id != 0 || count == 0 || total < 2 {
          return Assembly(0, done, idx, buf, id);
        }
        buf := Resize(buf, total - 2);
        id := DecodeU16(slot.data[4..]);
        idx := Min(total - 2, hdr.slotSize - 6);
        buf := slot.data[6..6 + idx] + buf[idx..];
      } else if slot.id != done {
        return Assembly(0, 0, 0, [], id);
      } else {
        var n := Min(|buf| - idx, hdr.slotSize);
        if n > 0 {
          buf := buf[..idx] + slot.data[..n] + buf[idx + n..];
          idx := idx + n;
        }
      }
      b := Assembly(count, done + 1, idx, buf, id);
    }

    /** The inner loop: the first slot from `head` on, at most 255 away, that carries its own stamp. */
    method ScanUncommitted(head: nat, tail: nat) returns (at: nat)
      requires hdr.Shape() && head < U32 && tail < U32
      ensures at == (head + ScanLength(Wrap32, hdr.Cfg(), hdr.slots[..], head,
                                       Min(Sub(Wrap32, tail, head), MAX_SLICE_COUNT))) % U32
    {
      hide ScanLength, Sub;
      at := head;
      var end := if (tail - head) % U32 > MAX_SLICE_COUNT then (head + MAX_SLICE_COUNT) % U32 else tail;
      ghost var cfg, slots := hdr.Cfg(), hdr.slots[..];
      ghost var left, n := ScanLimit(head, tail), 0;
      EndOfScan(head, tail);
      while at != end
        invariant n <= left && at == (head + n) % U32
        invariant n + ScanLength(Wrap32, cfg, slots, at, left - n) == ScanLength(Wrap32, cfg, slots, head, left)
        decreases left - n
      {
        SameOffset(head, n, left);
        ScanOpens(cfg, slots, at, left - n);
        if hdr.slots[at % hdr.slotCount].stamp == (at + 1) % U32 {
          break;
        }
        SumMod(head, n);
        at, n := (at + 1) % U32, n + 1;
      }
      SameOffset(head, n, left);
      ScanOpens(cfg, slots, at, left - n);
    }

    /** A published slot: take it and publish the head. */
    method TakePass(head: nat, asm: Assembly, ghost s0: State) returns (again: bool, head': nat, asm': Assembly)
      requires Passing(s0, head, asm) && hdr.st.readers[readerIndex].head != hdr.st.tail
      requires Stamped(hdr.st, hdr.slotCount, hdr.st.readers[readerIndex].head)
      modifies hdr`st, hdr.readerHead
      ensures hdr.Linked() && Readable(hdr.st, readerIndex) && hdr.st.Shaped(hdr.Cfg())
              && head' == W(hdr.st.readers[readerIndex].head)
      ensures hdr.st.tail == old(hdr.st.tail)
      ensures hdr.st.readers[readerIndex].head == old(hdr.st.readers[readerIndex].head) + 1
      ensures again ==> Passing(s0, head', asm')
      ensures !again ==> Received(hdr.Cfg(), s0, hdr.st, readerIndex) && Outcome(hdr.Cfg(), s0, readerIndex, asm')
    {
      hide Inv, InRecv, Received, Outcome, Readable, Quiet, Absorb;
      ghost var cfg, i, s := hdr.Cfg(), readerIndex, hdr.st;
      HeaderRange(hdr);
      PassFacts(hdr, s0, i);
      asm' := TakeSlot(hdr.slots[head % hdr.slotCount], asm);
      ghost var s' := CopyRun(cfg, s0, s, i);
      MessageCame(cfg, s0, s, i);
      head' := (head + 1) % U32;
      hdr.readerHead[readerIndex] := head';
      hdr.st := s';
      AfterRead(hdr, s, i);
      again := !(asm'.count > 0 && asm'.done >= asm'.count);
    }

    /** How many reserved slots lie ahead of this reader, and where the stall scan of its next pass ends. */
    ghost function Left(): int
      reads this, hdr
    {
      if readerIndex < |hdr.st.readers| then hdr.st.tail - hdr.st.readers[readerIndex].head else 0
    }

    ghost function StillAt(): nat
      reads this, hdr
    {
      if hdr.st.Shaped(hdr.Cfg()) && readerIndex < MAX_READER_COUNT then
        W(hdr.st.readers[readerIndex].head + Ahead(hdr.Cfg(), hdr.st, readerIndex))
      else 0
    }

    /** An unpublished slot: restart the timer when the scan's result moved, give up when it has run out. */
    method StallPass(head: nat, tail: nat, asm: Assembly, tailLast: nat, start: nat, ghost s0: State)
      returns (again: bool, head': nat, asm': Assembly, tailLast': nat, start': nat)
      requires Passing(s0, head, asm) && tail == hdr.tail && hdr.st.readers[readerIndex].head != hdr.st.tail
      requires !Stamped(hdr.st, hdr.slotCount, hdr.st.readers[readerIndex].head)
      modifies this`clock, hdr`st, hdr.readerHead
      ensures hdr.Linked() && Readable(hdr.st, readerIndex) && hdr.st.Shaped(hdr.Cfg())
              && head' == W(hdr.st.readers[readerIndex].head)
      ensures clock > old(clock)
      ensures again ==> Passing(s0, head', asm') && hdr.st == old(hdr.st) && tailLast' == old(StillAt())
                        && start' == if tailLast' == tailLast then start else clock
      ensures !again <==> old(StillAt()) == tailLast && clock > start + slotTimeout
      ensures !again ==> head' == old(StillAt())
      ensures !again ==> Received(hdr.Cfg(), s0, hdr.st, readerIndex) && Outcome(hdr.Cfg(), s0, readerIndex, asm')
    {
      hide Inv, InRecv, Received, Outcome, Readable, Quiet, Ahead, ScanLength, Sub;
      ghost var cfg, i, s := hdr.Cfg(), readerIndex, hdr.st;
      HeaderRange(hdr);
      PassFacts(hdr, s0, i);
      StallPassStays(cfg, s, i);
      hdr.st := CheckStampStep(Unbounded, cfg, LookStep(cfg, s, i).value, i).value;
      var at := ScanUncommitted(head, tail);
      StallScan(hdr, i);
      var now := GetTimestamp();
      if tailLast != at {
        return true, head, asm, at, now;
      }
      if now - start <= slotTimeout {
        return true, head, asm, tailLast, start;
      }
      ghost var s' := TimeoutRun(cfg, s0, s, i);
      again, head', asm', tailLast', start' := false, at, NOTHING.(id := asm.id), tailLast, start;
      hdr.readerHead[readerIndex] := head';
      hdr.st := s';
      AfterRead(hdr, s, i);
      NothingCame(cfg, s0, i, asm');
    }

    /** Nothing left to read: the ghost run ends the recv. */
    ghost method FinishEmpty(head: nat, asm: Assembly, s0: State)
      requires Passing(s0, head, asm) && hdr.st.readers[readerIndex].head == hdr.st.tail
      modifies hdr`st
      ensures hdr.Linked() && Readable(hdr.st, readerIndex) && hdr.st.Shaped(hdr.Cfg())
              && head == W(hdr.st.readers[readerIndex].head)
      ensures Received(hdr.Cfg(), s0, hdr.st, readerIndex) && Outcome(hdr.Cfg(), s0, readerIndex, asm)
    {
      hide Inv, InRecv, Received, Outcome, Readable, Quiet;
      HeaderRange(hdr);
      ghost var s := hdr.st;
      ghost var s' := EmptyRecv(hdr.Cfg(), s0, s, readerIndex);
      hdr.st := s';
      AfterRead(hdr, s, readerIndex);
      NothingCame(hdr.Cfg(), s0, readerIndex, asm);
    }

    /** One pass of the receive loop: finish empty, take a published slot, wait, or leave an abandoned one. */
    method OnePass(head: nat, asm: Assembly, tailLast: nat, start: nat, ghost s0: State)
      returns (again: bool, head': nat, asm': Assembly, tailLast': nat, start': nat)
      requires Passing(s0, head, asm)
      modifies this`clock, hdr`st, hdr.readerHead
      ensures hdr.Linked() && Readable(hdr.st, readerIndex) && hdr.st.Shaped(hdr.Cfg())
              && head' == W(hdr.st.readers[readerIndex].head)
      ensures again ==> Passing(s0, head', asm')
      ensures again ==> Left() < old(Left())
                        || (Left() == old(Left()) && StillAt() == old(StillAt()) == tailLast'
                            && (tailLast' == tailLast ==> start' == start && old(clock) < clock <= start + slotTimeout))
      ensures !again ==> Received(hdr.Cfg(), s0, hdr.st, readerIndex) && Outcome(hdr.Cfg(), s0, readerIndex, asm')
    {
      hide Inv, InRecv, Received, Outcome, Readable, Quiet, Ahead, Absorb;
      PassFacts(hdr, s0, readerIndex);
      again, head', asm', tailLast', start' := false, head, asm, tailLast, start;
      var tail := hdr.tail;
      if head == tail {
        FinishEmpty(head, asm, s0);
      } else if hdr.slots[head % hdr.slotCount].stamp == (head + 1) % U32 {
        again, head', asm' := TakePass(head, asm, s0);
      } else {
        again, head', asm', tailLast', start' := StallPass(head, tail, asm, tailLast, start, s0);
      }
    }

    method ReceiveLoop(ghost s0: State) returns (head: nat, asm: Assembly)
      requires Passing(s0, localHead, NOTHING)
      modifies this`clock, hdr`st, hdr.readerHead
      ensures hdr.Linked() && hdr.st.Shaped(hdr.Cfg()) && head == W(hdr.st.readers[readerIndex].head)
      ensures Received(hdr.Cfg(), s0, hdr.st, readerIndex) && Outcome(hdr.Cfg(), s0, readerIndex, asm)
    {
      hide Inv, InRecv, Received, Outcome, Readable, Quiet, RingHeader.Mirrors, StillAt;
      var tailLast: nat, start: nat, again := U32 - 1, 0, true;
      head, asm := localHead, NOTHING;
      LoopLag(hdr.Cfg(), hdr.st, readerIndex);
      while again
        invariant hdr.Linked() && hdr.st.Shaped(hdr.Cfg()) && head == W(hdr.st.readers[readerIndex].head)
        invariant again ==> Passing(s0, head, asm) && Left() >= 0
        invariant !again ==> Received(hdr.Cfg(), s0, hdr.st, readerIndex) && Outcome(hdr.Cfg(), s0, readerIndex, asm)
        decreases again, Left(), tailLast != StillAt(), start + slotTimeout + 1 - clock
      {
        again, head, asm, tailLast, start := OnePass(head, asm, tailLast, start, s0);
        if again {
          LoopLag(hdr.Cfg(), hdr.st, readerIndex);
        }
      }
    }

    /**
     * recv_impl on a quiet ring: sem_wait, then passes until a message is whole, the ring is empty or the timer
     * fires. It returns the message at the reader's head exactly if that is fully published, and always returns.
     * That the stamps ahead are Readable has to be asked only of a channel that readers joined or left, or with more
     * than 65536 slots: StampsAlwaysTell gives it for every run of any other.
     */
    method Recv() returns (rc: nat, msg: Message)
      requires hdr.Valid()
      requires readerIndex < MAX_READER_COUNT && hdr.canRecv ==>
                 Reading() && Readable(hdr.st, readerIndex) && hdr.sem[readerIndex] > 0
      modifies this`localHead, this`clock, hdr`st, hdr.readerHead, hdr.sem
      ensures hdr.Valid()
      ensures readerIndex >= MAX_READER_COUNT || !hdr.canRecv ==> rc == 0 && hdr.st == old(hdr.st)
      ensures readerIndex < MAX_READER_COUNT && hdr.canRecv ==>
                Reading() && ReturnedOf(hdr.Cfg(), old(hdr.st), hdr.st, readerIndex, rc, msg)
    {
      hide Inv, InRecv, Received, Outcome, Readable, Quiet, ReturnedOf;
      HeaderRange(hdr);
      msg := Message(0, []);
      if readerIndex >= MAX_READER_COUNT || !hdr.canRecv {
        return 0, msg;
      }
      ghost var s0 := hdr.st;
      BeginRecv(hdr, readerIndex);
      ghost var s1 := StartRecv(hdr.Cfg(), s0, readerIndex);
      hdr.sem[readerIndex] := hdr.sem[readerIndex] - 1;
      hdr.st := s1;
      AfterWait(hdr, s0, readerIndex);
      var head, asm := ReceiveLoop(s0);
      EndRecv(hdr, s0, readerIndex);
      rc := if asm.count > 0 && asm.done < asm.count then 0 else asm.idx;
      msg := Message(asm.id, asm.buf);
      OutcomeIs(hdr.Cfg(), s0, hdr.st, readerIndex, asm);
      StoredAgain(hdr, readerIndex);
      localHead := head;
      hdr.readerHead[readerIndex] := head;
    }
  }

  // ----- both sides together -----

  /** A quiet channel that nobody died on, with `r` as a reader that has read everything. */
  ghost predicate Drained(h: RingHeader, r: StreamShmCreator)
    reads h, r, h.sem, h.readerHead, h.slots
  {
    && r.hdr == h && h.Valid() && h.canRecv && AllLive(h.st.log) && r.Reading()
    && r.readerIndex < |h.st.readers| && h.st.readers[r.readerIndex].head == h.st.tail
  }

  lemma DrainedFacts(h: RingHeader, r: StreamShmCreator)
    requires Drained(h, r)
    ensures h.st.Shaped(h.Cfg()) && Inv(h.Cfg(), h.st) && r.readerIndex in h.Cfg().readers
    ensures h.st.heads[r.readerIndex] == h.st.tail
  {
    hide LogInv, MemInv, HeadsInv, SenderOk, BackLink, TokensInv, AsmOk, Complete, Turn, AllEnded;
    assert ReaderOk(h.Cfg(), h.st.log, h.st.own, h.st.heads[r.readerIndex], h.st.readers[r.readerIndex]);
  }

  /** After the send the reader has a token, a head at the message and stamps that tell. */
  lemma ReadyToReceive(h: RingHeader, i: nat, before: State, msg: Message)
    requires h.Valid() && i in h.readerFlag && before.Shaped(h.Cfg()) && h.st.Shaped(h.Cfg()) && Inv(h.Cfg(), before)
    requires AllLive(before.log) && Sent(h.Cfg(), before, h.st, msg)
    ensures AllLive(h.st.log) && Readable(h.st, i) && h.sem[i] > 0 && h.Linked()
    ensures h.st.readers[i] == before.readers[i]
  {
    hide Inv;
    HeaderRange(h);
    SentIsReady(h.Cfg(), before, h.st, msg);
    LiveIsReadable(h.Cfg(), h.st, i);
  }

  lemma ReturnsTheMessage(cfg: Config, s0: State, s1: State, s2: State, i: nat, msg: Message, rc: nat, got: Message)
    requires s0.Shaped(cfg) && s1.Shaped(cfg) && s2.Shaped(cfg) && Inv(cfg, s0) && Inv(cfg, s1) && i < MAX_READER_COUNT
    requires Sent(cfg, s0, s1, msg) && s1.readers[i].head == s0.tail && ReturnedOf(cfg, s1, s2, i, rc, got)
    ensures rc == |msg.data| && got == msg && s2.readers[i].head == s2.tail && s2.log == s1.log
  {
    hide Inv;
    SentIsReady(cfg, s0, s1, msg);
  }

  /**
   * On a quiet channel without deaths, a reader that has read everything receives exactly what is sent next, and has
   * then read everything again. The other readers and the counters may stand anywhere.
   */
  method SendThenRecv(w: StreamShmCreator, r: StreamShmCreator, msg: Message, spurious: nat)
    returns (rc: nat, got: Message)
    requires w.hdr == r.hdr && Drained(r.hdr, r) && 6 + |msg.data| + r.hdr.slotSize - 1 < U32
    requires r.hdr.st.Shaped(r.hdr.Cfg()) && Admitted(r.hdr.Cfg(), r.hdr.canSend, r.hdr.st, msg)
    modifies r`localHead, r`clock, r.hdr`tail, r.hdr`st, r.hdr.slots, r.hdr.sem, r.hdr.readerHead
    ensures rc == |msg.data| && got == msg
    ensures Drained(r.hdr, r)
  {
    hide Inv, Quiet, Received, Sent, Admitted, RingHeader.Mirrors, ReturnedOf, Readable, AllLive;
    ghost var h, i, s0 := r.hdr, r.readerIndex, r.hdr.st;
    DrainedFacts(h, r);
    var sent := w.Send(msg, spurious);
    ghost var s1 := h.st;
    HeaderRange(h);
    ReadyToReceive(h, i, s0, msg);
    rc, got := r.Recv();
    HeaderRange(h);
    ReturnsTheMessage(h.Cfg(), s0, s1, h.st, i, msg, rc, got);
  }

  /** A message that fits a channel at all. */
  ghost predicate Fits(msg: Message, size: nat, count: nat) {
    && size >= 6 && |msg.data| > 0 && 6 + |msg.data| + size - 1 < U32
    && Slicing.Need(size, |msg.data|) <= MAX_SLICE_COUNT && Slicing.Need(size, |msg.data|) + 1 <= count
  }

  lemma FitsIsAdmitted(h: RingHeader, r: StreamShmCreator, msg: Message)
    requires Drained(h, r) && h.canSend && h.readerFlag == {r.readerIndex} && Fits(msg, h.slotSize, h.slotCount)
    ensures h.st.Shaped(h.Cfg()) && Admitted(h.Cfg(), h.canSend, h.st, msg)
  {
    hide Inv, Quiet, AllLive;
    DrainedFacts(h, r);
  }

  /** On a channel with one reader any sequence of messages comes through, whole and in order. */
  method Relay(w: StreamShmCreator, r: StreamShmCreator, msgs: seq<Message>) returns (got: seq<Message>)
    requires w.hdr == r.hdr && Drained(r.hdr, r) && r.hdr.canSend && r.hdr.readerFlag == {r.readerIndex}
    requires forall k :: 0 <= k < |msgs| ==> Fits(msgs[k], r.hdr.slotSize, r.hdr.slotCount)
    modifies r`localHead, r`clock, r.hdr`tail, r.hdr`st, r.hdr.slots, r.hdr.sem, r.hdr.readerHead
    ensures got == msgs && Drained(r.hdr, r)
  {
    hide Drained, Admitted;
    got := [];
    while |got| < |msgs|
      invariant |got| <= |msgs| && got == msgs[..|got|] && Drained(r.hdr, r)
    {
      var msg := msgs[|got|];
      FitsIsAdmitted(r.hdr, r, msg);
      var rc, m := SendThenRecv(w, r, msg, 0);
      got := got + [m];
    }
  }

  lemma NewIsDrained(h: RingHeader, i: nat)
    requires h.Valid() && i in h.readerFlag
    requires JoinedFrom(Config(h.slotCount, h.slotSize, {}), Init(Config(h.slotCount, h.slotSize, {})), h.st, i)
    ensures AllLive(h.st.log) && h.Linked() && i < |h.st.readers| && h.st.readers[i].head == h.st.tail
    ensures h.readerHead[i] == W(h.st.readers[i].head)
  {
    hide Inv, Quiet;
    HeaderRange(h);
  }

  /** A new channel with one reader and one writer. */
  method NewChannel(size: nat, count: nat, timeout: nat)
    returns (h: RingHeader, w: StreamShmCreator, r: StreamShmCreator)
    requires size >= 6 && PowerOfTwo(count)
    ensures h.slotSize == size && h.slotCount == count && w.hdr == r.hdr == h && h.canSend
    ensures Drained(h, r) && h.readerFlag == {r.readerIndex}
    ensures fresh(h) && fresh(h.sem) && fresh(h.readerHead) && fresh(h.slots) && fresh(r)
  {
    hide Inv, Quiet, Posts, JoinedFrom, RingHeader.Mirrors;
    h := new RingHeader(size, count);
    w := new StreamShmCreator(h, timeout);
    r := new StreamShmCreator(h, timeout);
    ghost var flag := h.readerFlag;
    var i := h.AllocReaderSlot();
    assert 0 !in flag;
    r.SetReaderIndex(i);
    NewIsDrained(h, i);
  }

  /** From creation on: whatever is sent over a new channel, message after message, arrives. */
  method WholeStreamArrives(msgs: seq<Message>, size: nat, count: nat, timeout: nat) returns (got: seq<Message>)
    requires size >= 6 && PowerOfTwo(count) && forall k :: 0 <= k < |msgs| ==> Fits(msgs[k], size, count)
    ensures got == msgs
  {
    hide Drained;
    var h, w, r := NewChannel(size, count, timeout);
    got := Relay(w, r, msgs);
  }
}
