/** The invariant of the ring with unbounded counters, and the proof that every step keeps it. */
module RingInv {
  import opened Slicing
  import opened Options
  import opened Ring

  ghost function NeedOf(cfg: Config, e: Entry): nat
    requires cfg.slotSize >= 6
  {
    cfg.Need(e.msg)
  }

  /** The slot with sequence number `at` was stamped by the sender that reserved it. */
  ghost predicate Published(log: seq<Entry>, own: seq<Own>, at: nat) {
    at < |own| && own[at].m < |log| && own[at].k < log[own[at].m].stamped
  }

  /** A reader may be past `at`: published, or never going to be. */
  ghost predicate Settled(log: seq<Entry>, own: seq<Own>, at: nat) {
    Published(log, own, at) || OwnerDead(log, own, at)
  }

  ghost predicate EntryOk(cfg: Config, own: seq<Own>, e: Entry)
    requires cfg.slotSize >= 6
  {
    && cfg.Sendable(e.msg)
    && 1 <= NeedOf(cfg, e) <= MAX_SLICE_COUNT
    && e.stamped <= NeedOf(cfg, e)
    && e.posted <= MAX_READER_COUNT
    && e.start + NeedOf(cfg, e) <= |own|
    && (e.posted > 0 ==> e.stamped == NeedOf(cfg, e))
  }

  /** The reservations tile the sequence numbers 0, 1, ..., |own| - 1. */
  ghost predicate LogInv(cfg: Config, log: seq<Entry>, own: seq<Own>)
    requires cfg.slotSize >= 6
  {
    && (forall m :: 0 <= m < |log| ==> EntryOk(cfg, own, log[m]))
    && (forall at :: 0 <= at < |own| ==>
          own[at].m < |log| && own[at].k < NeedOf(cfg, log[own[at].m]) && log[own[at].m].start + own[at].k == at)
    && (|log| == 0 ==> |own| == 0)
    && (|log| > 0 ==> log[0].start == 0 && log[|log| - 1].start + NeedOf(cfg, log[|log| - 1]) == |own|)
    && (forall m :: 0 < m < |log| ==> log[m].start == log[m - 1].start + NeedOf(cfg, log[m - 1]))
  }

  ghost predicate Intact(cfg: Config, log: seq<Entry>, own: seq<Own>, slots: seq<Slot>, at: nat)
    requires cfg.Valid() && |slots| == cfg.slotCount && Published(log, own, at)
  {
    var slot := slots[at % cfg.slotCount];
    slot.stamp == at + 1 && Carries(cfg.slotSize, log[own[at].m].msg, own[at].k, slot)
  }

  /** Every published slot that was not reserved again still holds its slice; a stamp never lies. */
  ghost predicate MemInv(cfg: Config, log: seq<Entry>, own: seq<Own>, slots: seq<Slot>)
    requires cfg.Valid()
  {
    && |slots| == cfg.slotCount
    && (forall i :: 0 <= i < |slots| ==> |slots[i].data| == cfg.slotSize)
    && (forall at {:trigger Published(log, own, at)} ::
          0 <= at && at + cfg.slotCount >= |own| && Published(log, own, at) ==>
            Intact(cfg, log, own, slots, at))
    && (forall i :: 0 <= i < |slots| && slots[i].stamp != 0 ==>
          Published(log, own, slots[i].stamp - 1) && (slots[i].stamp - 1) % cfg.slotCount == i)
  }

  /** The capacity bound, and what lies behind every active reader's head. */
  ghost predicate HeadsInv(cfg: Config, log: seq<Entry>, own: seq<Own>, heads: seq<nat>)
    requires cfg.Valid()
  {
    && |heads| == MAX_READER_COUNT
    && (forall i :: i in cfg.readers ==>
          heads[i] <= |own| <= heads[i] + cfg.slotCount - 1
          && forall at :: 0 <= at < heads[i] ==> Settled(log, own, at))
  }

  /** The reservation a send call is working on. */
  ghost function Holding(pc: SenderPc): Option<nat> {
    match pc
    case Fill(m, _, _, _) => Some(m)
    case Stamp(m, _, _, _) => Some(m)
    case Post(m, _) => Some(m)
    case Returned(m) => Some(m)
    case _ => None
  }

  ghost predicate Holds(log: seq<Entry>, c: nat, msg: Message, m: nat) {
    m < |log| && log[m].call == c && log[m].msg == msg && !log[m].dead
  }

  ghost predicate SenderOk(cfg: Config, log: seq<Entry>, own: seq<Own>, slots: seq<Slot>, heads: seq<nat>,
                           c: nat, snd: Sender)
    requires cfg.Valid() && |heads| == MAX_READER_COUNT && |slots| == cfg.slotCount
  {
    && cfg.Sendable(snd.msg)
    && match snd.pc
       case Scan(t, i, slow, maxUsed) =>
         && cfg.Need(snd.msg) <= MAX_SLICE_COUNT && cfg.readers != {}
         && t <= |own| && i <= MAX_READER_COUNT && maxUsed == Sub(Unbounded, t, slow)
         && slow <= |own| && t < slow + cfg.slotCount
         && (t == |own| ==> forall j :: j in cfg.readers && j < i ==> t <= heads[j] + maxUsed)
       case Cas(t) =>
         && cfg.Need(snd.msg) <= MAX_SLICE_COUNT && cfg.readers != {}
         && t <= |own|
         && (t == |own| ==> forall j :: j in cfg.readers ==> t + cfg.Need(snd.msg) <= heads[j] + cfg.slotCount - 1)
       case Fill(m, at, k, idx) =>
         && Holds(log, c, snd.msg, m) && cfg.readers != {}
         && at == log[m].start + k && k == log[m].stamped < cfg.Need(snd.msg)
         && log[m].posted == 0
         && idx == Offset(cfg.slotSize, |snd.msg.data|, k)
       case Stamp(m, at, k, idx) =>
         && Holds(log, c, snd.msg, m) && cfg.readers != {}
         && at == log[m].start + k && k == log[m].stamped < cfg.Need(snd.msg)
         && log[m].posted == 0
         && idx == Offset(cfg.slotSize, |snd.msg.data|, k)
         && Carries(cfg.slotSize, snd.msg, k, slots[at % cfg.slotCount])
       case Post(m, i) =>
         Holds(log, c, snd.msg, m) && log[m].stamped == cfg.Need(snd.msg) && log[m].posted == i <= MAX_READER_COUNT
       case Returned(m) =>
         Holds(log, c, snd.msg, m) && log[m].stamped == cfg.Need(snd.msg) && log[m].posted == MAX_READER_COUNT
       case _ => true
  }

  /** Every reservation is either held by the call that made it, or that call is dead. */
  ghost predicate BackLink(log: seq<Entry>, senders: seq<Sender>) {
    forall m :: 0 <= m < |log| && !log[m].dead ==>
                  log[m].call < |senders| && Holding(senders[log[m].call].pc) == Some(m)
  }

  // ----- readers -----

  /** The reservation that owns sequence number `at`, or the number of reservations at the tail. */
  ghost function IndexAt(log: seq<Entry>, own: seq<Own>, at: nat): nat {
    if at < |own| then own[at].m else |log|
  }

  /** How many reservations a reader is done with. */
  ghost function Turn(log: seq<Entry>, own: seq<Own>, r: Reader): nat {
    if r.asm.count > 0 && r.head > 0 then IndexAt(log, own, r.head - 1) else IndexAt(log, own, r.head)
  }

  /** The fully published messages among the first `n` reservations, in reservation order. */
  ghost function Complete(cfg: Config, log: seq<Entry>, n: nat): seq<Message>
    requires cfg.slotSize >= 6 && n <= |log|
  {
    if n == 0 then []
    else Complete(cfg, log, n - 1) + (if log[n - 1].stamped == NeedOf(cfg, log[n - 1]) then [log[n - 1].msg] else [])
  }

  /** A reader between messages is at the start of one, or inside the abandoned part of a dead one. */
  ghost predicate Boundary(log: seq<Entry>, own: seq<Own>, at: nat) {
    at < |own| ==> own[at].k == 0 || (OwnerDead(log, own, at) && !Published(log, own, at))
  }

  ghost predicate AsmOk(cfg: Config, log: seq<Entry>, own: seq<Own>, r: Reader)
    requires cfg.slotSize >= 6
  {
    if r.asm.count == 0 then r.asm.done == 0 && r.asm.idx == 0 && Boundary(log, own, r.head)
    else
      && 1 <= r.head <= |own| && own[r.head - 1].m < |log|
      && var o := own[r.head - 1];
         && o.k + 1 == r.asm.done <= log[o.m].stamped
         && Partial(cfg.slotSize, log[o.m].msg, r.asm.done, r.asm)
         && (r.asm.done == r.asm.count ==> r.pc == Publish(true))
  }

  ghost predicate ReaderOk(cfg: Config, log: seq<Entry>, own: seq<Own>, head: nat, r: Reader)
    requires cfg.slotSize >= 6
  {
    && r.pos == r.head && head <= r.head <= |own|
    && (forall at :: 0 <= at < r.head ==> Settled(log, own, at))
    && AsmOk(cfg, log, own, r)
    && Turn(log, own, r) <= |log|
    && r.delivered == Complete(cfg, log, Turn(log, own, r))
    && (!r.pc.Publish? ==> head == r.head)
    && match r.pc
       case Idle => r.asm == NOTHING
       case Loop => true
       case Check(t) => r.head < t <= |own|
       case Copy => Published(log, own, r.head)
       case Publish(fin) => head < r.head && (fin ==> r.asm.count == 0 || r.asm.done == r.asm.count)
  }

  // ----- semaphores -----

  /** How many reservations have posted reader `i`'s semaphore. */
  ghost function Posts(log: seq<Entry>, i: nat): nat {
    if |log| == 0 then 0
    else Posts(log[..|log| - 1], i) + (if log[|log| - 1].posted > i then 1 else 0)
  }

  ghost predicate TokensInv(cfg: Config, s: State)
    requires s.Shaped(cfg)
  {
    forall i :: i in cfg.readers ==> s.tokens[i] + s.readers[i].waits == Posts(s.log, i)
  }

  ghost predicate Inv(cfg: Config, s: State) {
    && s.Shaped(cfg)
    && s.tail == |s.own|
    && LogInv(cfg, s.log, s.own)
    && MemInv(cfg, s.log, s.own, s.slots)
    && HeadsInv(cfg, s.log, s.own, s.heads)
    && (forall c :: 0 <= c < |s.senders| ==> SenderOk(cfg, s.log, s.own, s.slots, s.heads, c, s.senders[c]))
    && BackLink(s.log, s.senders)
    && (forall i :: i in cfg.readers ==> ReaderOk(cfg, s.log, s.own, s.heads[i], s.readers[i]))
    && TokensInv(cfg, s)
  }

  lemma InvInit(cfg: Config)
    requires cfg.Valid()
    ensures Init(cfg).Shaped(cfg) && Inv(cfg, Init(cfg))
  {
    var s := Init(cfg);
    assert forall i :: i in cfg.readers ==> s.readers[i] == Reader(Idle, 0, 0, NOTHING, [], 0);
    assert forall i :: i in cfg.readers ==> ReaderOk(cfg, [], [], 0, s.readers[i]);
  }

  // ----- facts about the log -----

  lemma {:induction false} StartsOrdered(cfg: Config, log: seq<Entry>, own: seq<Own>, a: nat, b: nat)
    requires cfg.slotSize >= 6 && LogInv(cfg, log, own) && a < b < |log|
    ensures log[a].start + NeedOf(cfg, log[a]) <= log[b].start
    decreases b
  {
    if a + 1 < b {
      StartsOrdered(cfg, log, own, a, b - 1);
    }
  }

  lemma OwnerAt(cfg: Config, log: seq<Entry>, own: seq<Own>, m: nat, k: nat)
    requires cfg.slotSize >= 6 && LogInv(cfg, log, own) && m < |log| && k < NeedOf(cfg, log[m])
    ensures log[m].start + k < |own| && own[log[m].start + k] == Own(m, k)
  {
    assert EntryOk(cfg, own, log[m]);
    var o := own[log[m].start + k];
    if o.m < m {
      StartsOrdered(cfg, log, own, o.m, m);
    } else if m < o.m {
      StartsOrdered(cfg, log, own, m, o.m);
    }
  }

  /** The reservation after `at` is the next one exactly at a message's end. */
  lemma NextOwner(cfg: Config, log: seq<Entry>, own: seq<Own>, at: nat)
    requires cfg.slotSize >= 6 && LogInv(cfg, log, own) && at < |own|
    ensures own[at].k + 1 < NeedOf(cfg, log[own[at].m]) ==>
              at + 1 < |own| && own[at + 1] == Own(own[at].m, own[at].k + 1)
    ensures own[at].k + 1 == NeedOf(cfg, log[own[at].m]) ==>
              IndexAt(log, own, at + 1) == own[at].m + 1 && (at + 1 < |own| ==> own[at + 1].k == 0)
  {
    var m := own[at].m;
    if own[at].k + 1 < NeedOf(cfg, log[m]) {
      OwnerAt(cfg, log, own, m, own[at].k + 1);
    } else if m + 1 < |log| {
      assert log[m + 1].start == at + 1;
      OwnerAt(cfg, log, own, m + 1, 0);
    }
  }

  /** Reservations before a reader's turn lie wholly behind its head. */
  lemma BehindTurn(cfg: Config, log: seq<Entry>, own: seq<Own>, r: Reader, m: nat)
    requires cfg.slotSize >= 6 && LogInv(cfg, log, own) && r.head <= |own|
    requires m < |log| && m < Turn(log, own, r)
    ensures log[m].start + NeedOf(cfg, log[m]) <= r.head
  {
    var t := Turn(log, own, r);
    if t < |log| {
      StartsOrdered(cfg, log, own, m, t);
    } else if m + 1 < |log| {
      StartsOrdered(cfg, log, own, m, |log| - 1);
    }
  }

  /** ... and are complete or dead. */
  lemma DoneWithIsFinal(cfg: Config, log: seq<Entry>, own: seq<Own>, head: nat, r: Reader, m: nat)
    requires cfg.slotSize >= 6 && LogInv(cfg, log, own) && ReaderOk(cfg, log, own, head, r)
    requires m < |log| && m < Turn(log, own, r)
    ensures log[m].dead || log[m].stamped == NeedOf(cfg, log[m])
  {
    BehindTurn(cfg, log, own, r, m);
    var last := log[m].start + (NeedOf(cfg, log[m]) - 1);
    OwnerAt(cfg, log, own, m, NeedOf(cfg, log[m]) - 1);
    assert Settled(log, own, last);
  }

  lemma {:induction false} CompleteStable(cfg: Config, log: seq<Entry>, log': seq<Entry>, n: nat)
    requires cfg.slotSize >= 6 && n <= |log| && n <= |log'|
    requires forall m :: 0 <= m < n ==> log[m].msg == log'[m].msg
    requires forall m :: 0 <= m < n ==>
      (log[m].stamped == NeedOf(cfg, log[m]) <==> log'[m].stamped == NeedOf(cfg, log'[m]))
    ensures Complete(cfg, log, n) == Complete(cfg, log', n)
  {
    if n > 0 {
      CompleteStable(cfg, log, log', n - 1);
    }
  }

  /** Abandoned messages add nothing. */
  lemma {:induction false} CompleteSkips(cfg: Config, log: seq<Entry>, a: nat, b: nat)
    requires cfg.slotSize >= 6 && a <= b <= |log|
    requires forall m :: a <= m < b ==> log[m].stamped != NeedOf(cfg, log[m])
    ensures Complete(cfg, log, a) == Complete(cfg, log, b)
    decreases b
  {
    if a < b {
      CompleteSkips(cfg, log, a, b - 1);
    }
  }

  /** A reader that passed everything a live sender has yet to publish would have settled it: so it has not. */
  lemma UnpublishedIsAhead(cfg: Config, log: seq<Entry>, own: seq<Own>, m: nat, at: nat, head: nat)
    requires cfg.slotSize >= 6 && LogInv(cfg, log, own)
    requires m < |log| && !log[m].dead && log[m].stamped < NeedOf(cfg, log[m]) && at == log[m].start + log[m].stamped
    requires forall x :: 0 <= x < head ==> Settled(log, own, x)
    ensures head <= at
  {
    OwnerAt(cfg, log, own, m, log[m].stamped);
    assert !Settled(log, own, at);
  }
}
