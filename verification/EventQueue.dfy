/**
 * LockFreeQueue between many posting threads and the one thread that waits in EpollControl, with the eventfd and the
 * edge-triggered epoll around it, as a transition system of single shared accesses.
 */
module EventQueue {
  import opened Options
  import Bytes

  const SIZE_MAX_PLUS_1: int := 0x1_0000_0000_0000_0000

  /** One node; None is a default-constructed or moved-from task. */
  datatype Cell<T> = Cell(data: Option<T>, committed: bool)

  /** History: one reserved position, in the order of the successful tail exchanges. */
  datatype Post<T> = Post(call: nat, item: T, committed: bool)

  datatype ProducerPc =
    | Start
    | LoadHead(t: nat)
    | Cas(t: nat)
    | WaitSlot(p: nat)
    | Write(p: nat)
    | Commit(p: nat)
    | Wake(p: nat)
    | Returned(p: nat)
    | Refused

  datatype Producer<T> = Producer(item: T, pc: ProducerPc)

  datatype WorkerPc<T> =
    | EpollWait
    | ReadEvent
    | PopHead
    | PopTail(h: nat)
    | CheckCommitted(h: nat)
    | PopCas(h: nat)
    | Move(h: nat)
    | Clear(h: nat, item: Option<T>)
    | RunTask(item: Option<T>)

  /** `log` and `ran` are history: the reservations and the tasks that were run. */
  datatype State<T> = State(
    head: nat, tail: nat, cells: seq<Cell<T>>,
    counter: nat, ready: bool,
    producers: seq<Producer<T>>, worker: WorkerPc<T>,
    log: seq<Post<T>>, ran: seq<Option<T>>)

  datatype Action<T> =
    | Call(item: T)
    | Produce(c: nat, spurious: bool)
    | Work(spurious: bool)
    | ExtraWake

  function Init<T>(cap: nat): State<T> {
    State(0, 0, seq(cap, _ => Cell(None, false)), 0, false, [], EpollWait, [], [])
  }

  /** (tail - head) & ~mask != 0 on size_t, for a capacity that is a power of two. */
  predicate Full(t: nat, h: nat, cap: nat) {
    (t - h) % SIZE_MAX_PLUS_1 >= cap
  }

  function SetPc<T>(s: State<T>, c: nat, pc: ProducerPc): State<T>
    requires c < |s.producers|
  {
    s.(producers := s.producers[c := s.producers[c].(pc := pc)])
  }

  /** push, then wake. A failed exchange leaves the current tail in the local variable. */
  function ProduceStep<T>(s: State<T>, c: nat, spurious: bool): Option<State<T>>
    requires c < |s.producers| && |s.cells| > 0
  {
    var cap := |s.cells|;
    match s.producers[c].pc
    case Start => Some(SetPc(s, c, LoadHead(s.tail)))
    case LoadHead(t) => Some(SetPc(s, c, if Full(t, s.head, cap) then Refused else Cas(t)))
    case Cas(t) =>
      if spurious || s.tail != t then Some(SetPc(s, c, LoadHead(s.tail)))
      else Some(SetPc(s, c, WaitSlot(t)).(tail := t + 1, log := s.log + [Post(c, s.producers[c].item, false)]))
    case WaitSlot(p) => if s.cells[p % cap].committed then None else Some(SetPc(s, c, Write(p)))
    case Write(p) =>
      Some(SetPc(s, c, Commit(p)).(cells := s.cells[p % cap := s.cells[p % cap].(data := Some(s.producers[c].item))]))
    case Commit(p) =>
      if p >= |s.log| then None
      else
        Some(SetPc(s, c, Wake(p)).(cells := s.cells[p % cap := s.cells[p % cap].(committed := true)],
                                   log := s.log[p := s.log[p].(committed := true)]))
    case Wake(p) => Some(SetPc(s, c, Returned(p)).(counter := s.counter + 1, ready := true))
    case _ => None
  }

  /** wait: one edge, read the counter, pop until the queue is empty. */
  function WorkStep<T>(s: State<T>, spurious: bool): Option<State<T>>
    requires |s.cells| > 0
  {
    var cap := |s.cells|;
    match s.worker
    case EpollWait =>
      if !s.ready then None else Some(s.(ready := false, worker := if s.counter > 0 then ReadEvent else EpollWait))
    case ReadEvent => Some(s.(counter := 0, worker := PopHead))
    case PopHead => Some(s.(worker := PopTail(s.head)))
    case PopTail(h) => Some(s.(worker := if h == s.tail then EpollWait else CheckCommitted(h)))
    case CheckCommitted(h) => Some(s.(worker := if s.cells[h % cap].committed then PopCas(h) else PopTail(h)))
    case PopCas(h) =>
      if spurious || s.head != h then Some(s.(worker := PopTail(s.head)))
      else Some(s.(head := h + 1, worker := Move(h)))
    case Move(h) =>
      Some(s.(worker := Clear(h, s.cells[h % cap].data), cells := s.cells[h % cap := s.cells[h % cap].(data := None)]))
    case Clear(h, item) =>
      Some(s.(worker := RunTask(item), cells := s.cells[h % cap := s.cells[h % cap].(committed := false)]))
    case RunTask(item) => Some(s.(worker := PopHead, ran := s.ran + [item]))
  }

  function Next<T>(s: State<T>, a: Action<T>): Option<State<T>>
    requires |s.cells| > 0
  {
    match a
    case Call(item) => Some(s.(producers := s.producers + [Producer(item, Start)]))
    case Produce(c, spurious) => if c < |s.producers| then ProduceStep(s, c, spurious) else None
    case Work(spurious) => WorkStep(s, spurious)
    case ExtraWake => Some(s.(counter := s.counter + 1, ready := true))
  }

  ghost predicate StepAt<T>(tr: seq<State<T>>, acts: seq<Action<T>>, n: nat)
    requires n < |acts| && n + 1 < |tr|
  {
    |tr[n].cells| > 0 && Next(tr[n], acts[n]) == Some(tr[n + 1])
  }

  ghost predicate Run<T>(cap: nat, tr: seq<State<T>>, acts: seq<Action<T>>) {
    && |tr| == |acts| + 1
    && tr[0] == Init(cap)
    && (forall n :: 0 <= n < |tr| ==> |tr[n].cells| == cap)
    && (forall n :: 0 <= n < |acts| ==> StepAt(tr, acts, n))
  }

  // ----- the invariant -----

  /** The oldest position whose slot the worker is not done with. */
  ghost function Base<T>(s: State<T>): int {
    match s.worker
    case Move(h) => h
    case Clear(h, _) => h
    case _ => s.head
  }

  /** How many tasks were run. */
  ghost function Finished<T>(s: State<T>): int {
    match s.worker
    case Move(_) => s.head - 1
    case Clear(_, _) => s.head - 1
    case RunTask(_) => s.head - 1
    case _ => s.head
  }

  ghost predicate Reserved(pc: ProducerPc) {
    pc.WaitSlot? || pc.Write? || pc.Commit? || pc.Wake? || pc.Returned?
  }

  ghost function Position(pc: ProducerPc): nat
    requires Reserved(pc)
  {
    match pc
    case WaitSlot(p) => p
    case Write(p) => p
    case Commit(p) => p
    case Wake(p) => p
    case Returned(p) => p
  }

  ghost predicate ProducerOk<T>(s: State<T>, c: nat)
    requires c < |s.producers| && |s.cells| > 0
  {
    var pc := s.producers[c].pc;
    && (pc.LoadHead? ==> pc.t <= s.tail)
    && (pc.Cas? ==> pc.t <= s.tail && pc.t < s.head + |s.cells|)
    && (Reserved(pc) ==>
          var p := Position(pc);
          && p < |s.log| && s.log[p].call == c && s.log[p].item == s.producers[c].item
          && (s.log[p].committed <==> pc.Wake? || pc.Returned?)
          && (pc.Write? || pc.Commit? ==> p < Base(s) + |s.cells|)
          && (pc.Commit? ==> s.cells[p % |s.cells|].data == Some(s.producers[c].item)))
  }

  /** Every reserved position belongs to the call that reserved it. */
  ghost predicate BackLink<T>(log: seq<Post<T>>, producers: seq<Producer<T>>) {
    forall p :: 0 <= p < |log| ==>
                  && log[p].call < |producers| && Reserved(producers[log[p].call].pc)
                  && Position(producers[log[p].call].pc) == p
  }

  /** A slot's flag is that of the oldest position it stands for, and a committed slot holds that position's task. */
  ghost predicate CellOk<T>(s: State<T>, p: nat)
    requires |s.cells| > 0
  {
    var cell := s.cells[p % |s.cells|];
    && (cell.committed <==> p < |s.log| && s.log[p].committed)
    && (p < |s.log| && s.log[p].committed && !(s.worker.Clear? && p == s.worker.h) ==> cell.data == Some(s.log[p].item))
  }

  ghost predicate WorkerOk<T>(s: State<T>) {
    match s.worker
    case PopTail(h) => h == s.head
    case CheckCommitted(h) => h == s.head < s.tail
    case PopCas(h) => h == s.head < |s.log| && s.log[h].committed
    case Move(h) => h == s.head - 1 && h < |s.log| && s.log[h].committed
    case Clear(h, item) => h == s.head - 1 && h < |s.log| && s.log[h].committed && item == Some(s.log[h].item)
    case RunTask(item) => 0 < s.head <= |s.log| && item == Some(s.log[s.head - 1].item)
    case _ => true
  }

  ghost function Items<T>(log: seq<Post<T>>, n: nat): (r: seq<Option<T>>)
    requires n <= |log|
    ensures |r| == n
  {
    seq(n, p requires 0 <= p < n => Some(log[p].item))
  }

  /** A position whose producer has yet to call wake. */
  ghost predicate WakePending<T>(s: State<T>, p: nat) {
    && p < |s.log| && s.log[p].call < |s.producers|
    && var pc := s.producers[s.log[p].call].pc;
       pc == WaitSlot(p) || pc == Write(p) || pc == Commit(p) || pc == Wake(p)
  }

  /**
   * While the worker sleeps, a queued position has its wake ahead of it, or an edge with a non-zero counter is
   * waiting.
   */
  ghost predicate Awake<T>(s: State<T>) {
    s.worker == EpollWait && !(s.ready && s.counter > 0) ==> forall p :: s.head <= p < |s.log| ==> WakePending(s, p)
  }

  ghost predicate Inv<T>(s: State<T>) {
    && 0 < |s.cells| < SIZE_MAX_PLUS_1
    && s.tail == |s.log| && s.head <= s.tail <= s.head + |s.cells|
    && WorkerOk(s)
    && (forall p :: 0 <= p < s.head ==> s.log[p].committed)
    && (forall c :: 0 <= c < |s.producers| ==> ProducerOk(s, c))
    && BackLink(s.log, s.producers)
    && (forall p :: Base(s) <= p < Base(s) + |s.cells| ==> CellOk(s, p))
    && (forall p :: Base(s) + |s.cells| <= p < |s.log| ==> !s.log[p].committed)
    && s.ran == Items(s.log, Finished(s))
    && Awake(s)
  }

  // ----- every step keeps it -----

  lemma InvInit<T>(cap: nat)
    requires 0 < cap < SIZE_MAX_PLUS_1
    ensures Inv(Init<T>(cap))
  {
  }

  /**
   * On a window no wider than size_t the masked test is the true one, except that a head past the tail reads as full.
   */
  lemma FullMeans(t: nat, h: nat, cap: nat)
    requires 0 < cap < SIZE_MAX_PLUS_1 && t <= h + cap && h <= t + SIZE_MAX_PLUS_1 - cap
    ensures Full(t, h, cap) <==> h > t || t == h + cap
  {
    if h > t {
      assert (t - h) % SIZE_MAX_PLUS_1 == SIZE_MAX_PLUS_1 + t - h;
    }
  }

  lemma NotFullFits(t: nat, h: nat, cap: nat)
    requires 0 < cap < SIZE_MAX_PLUS_1 && t <= h + cap && !Full(t, h, cap)
    ensures t < h + cap
  {
  }

  /** A step that changes only one producer's pc, outside the reserved part. */
  lemma LocalKeeps<T>(s: State<T>, c: nat, pc: ProducerPc)
    requires Inv(s) && c < |s.producers| && !Reserved(s.producers[c].pc) && !Reserved(pc)
    requires ProducerOk(SetPc(s, c, pc), c)
    ensures Inv(SetPc(s, c, pc))
  {
    var s' := SetPc(s, c, pc);
    forall d | 0 <= d < |s'.producers|
      ensures ProducerOk(s', d)
    {
      assert ProducerOk(s, d);
    }
    assert forall p :: 0 <= p < |s.log| ==> s.log[p].call != c;
    forall p | Base(s') <= p < Base(s') + |s'.cells|
      ensures CellOk(s', p)
    {
      assert CellOk(s, p);
    }
    forall p | s.head <= p < |s.log| && WakePending(s, p)
      ensures WakePending(s', p)
    {
    }
  }

  lemma CellsStay<T>(s: State<T>, s': State<T>)
    requires |s.cells| > 0 && s'.cells == s.cells && s'.log == s.log && Base(s') == Base(s) >= 0
    requires s'.worker.Clear? == s.worker.Clear? && (s.worker.Clear? ==> s'.worker.h == s.worker.h)
    requires forall p :: Base(s) <= p < Base(s) + |s.cells| ==> CellOk(s, p)
    ensures forall p :: Base(s') <= p < Base(s') + |s'.cells| ==> CellOk(s', p)
  {
    forall p | Base(s') <= p < Base(s') + |s'.cells|
      ensures CellOk(s', p)
    {
      assert CellOk(s, p);
    }
  }

  lemma CallKeeps<T>(s: State<T>, item: T)
    requires Inv(s)
    ensures Inv(s.(producers := s.producers + [Producer(item, Start)]))
  {
    var s' := s.(producers := s.producers + [Producer(item, Start)]);
    forall d | 0 <= d < |s'.producers|
      ensures ProducerOk(s', d)
    {
      assert d < |s.producers| ==> ProducerOk(s, d);
    }
    CellsStay(s, s');
    assert forall p :: s.head <= p < |s.log| && WakePending(s, p) ==> WakePending(s', p);
  }

  lemma BaseIsNatural<T>(s: State<T>)
    requires Inv(s)
    ensures Base(s) >= 0 && Finished(s) >= 0
  {
    hide ProducerOk, BackLink, CellOk, Awake;
  }

  lemma ReserveAwake<T>(s: State<T>, c: nat)
    requires Awake(s) && c < |s.producers| && s.producers[c].pc == Cas(s.tail) && s.tail == |s.log| && |s.cells| > 0
    requires forall p :: 0 <= p < |s.log| ==> s.log[p].call != c
    ensures Awake(ProduceStep(s, c, false).value)
  {
    var s' := ProduceStep(s, c, false).value;
    forall p | s.head <= p < |s.log| && WakePending(s, p)
      ensures WakePending(s', p)
    {
    }
    assert WakePending(s', |s.log|);
  }

  /** The exchange succeeds: the position is the producer's, nobody is overtaken. */
  lemma ReserveKeeps<T>(s: State<T>, c: nat)
    requires Inv(s) && c < |s.producers| && s.producers[c].pc == Cas(s.tail)
    ensures var r := ProduceStep(s, c, false); r.Some? && Inv(r.value)
  {
    var s' := ProduceStep(s, c, false).value;
    hide Awake;
    assert ProducerOk(s, c);
    BaseIsNatural(s);
    assert forall p :: 0 <= p < |s.log| ==> s.log[p].call != c;
    forall d | 0 <= d < |s'.producers|
      ensures ProducerOk(s', d)
    {
      assert ProducerOk(s, d);
    }
    forall p | Base(s') <= p < Base(s') + |s'.cells|
      ensures CellOk(s', p)
    {
      assert CellOk(s, p);
    }
    assert Items(s'.log, Finished(s')) == Items(s.log, Finished(s));
    ReserveAwake(s, c);
  }

  /** Two positions of one window never share a slot. */
  lemma SlotsApart(base: nat, cap: nat, p: nat, q: nat)
    requires cap > 0 && base <= p < base + cap && base <= q < base + cap && p != q
    ensures p % cap != q % cap
  {
    if p < q {
      Bytes.ResiduesDiffer(p, q, cap);
    } else {
      Bytes.ResiduesDiffer(q, p, cap);
    }
  }

  /** One lap ahead of a task that is being moved out: its slot still reads as committed. */
  lemma LapAheadIsBusy<T>(s: State<T>, p: nat)
    requires Inv(s) && p == Base(s) + |s.cells| < |s.log|
    ensures s.cells[p % |s.cells|].committed
  {
    hide ProducerOk, BackLink, Awake;
    Bytes.ModLapBefore(p, |s.cells|);
    assert CellOk(s, Base(s));
  }

  /** The wait before writing: a free slot means the position is inside the worker's window. */
  lemma FreeSlotIsInWindow<T>(s: State<T>, c: nat, p: nat)
    requires Inv(s) && c < |s.producers| && s.producers[c].pc == WaitSlot(p) && !s.cells[p % |s.cells|].committed
    ensures Base(s) <= p < Base(s) + |s.cells|
  {
    hide CellOk, BackLink, Awake;
    BaseIsNatural(s);
    assert ProducerOk(s, c);
    if p == Base(s) + |s.cells| {
      LapAheadIsBusy(s, p);
    }
  }

  lemma AwakeByEdge<T>(s: State<T>)
    requires s.ready && s.counter > 0
    ensures Awake(s)
  {
  }

  lemma HolderAwake<T>(s: State<T>, s': State<T>, c: nat)
    requires Awake(s) && c < |s.producers| == |s'.producers| && s.head == s'.head && |s.log| == |s'.log|
    requires forall p :: 0 <= p < |s.log| ==> s.log[p].call == s'.log[p].call
    requires s'.producers == s.producers[c := s'.producers[c]] && Reserved(s.producers[c].pc)
    requires Reserved(s'.producers[c].pc) && !s'.producers[c].pc.Returned?
    requires Position(s'.producers[c].pc) == Position(s.producers[c].pc)
    requires s'.worker == s.worker && s'.ready == s.ready && s'.counter == s.counter
    ensures Awake(s')
  {
    forall p | s.head <= p < |s.log| && WakePending(s, p)
      ensures WakePending(s', p)
    {
    }
  }

  /** A producer moves on within its own position without touching log or slots. */
  lemma HolderAdvances<T>(s: State<T>, s': State<T>, c: nat)
    requires Inv(s) && c < |s.producers| && Reserved(s.producers[c].pc)
    requires |s'.producers| == |s.producers|
    requires s' == SetPc(s, c, s'.producers[c].pc).(counter := s'.counter, ready := s'.ready)
    requires Reserved(s'.producers[c].pc) && Position(s'.producers[c].pc) == Position(s.producers[c].pc)
    requires ProducerOk(s', c)
    requires if s'.producers[c].pc.Returned? then s'.ready && s'.counter > 0
             else s'.counter == s.counter && s'.ready == s.ready
    ensures Inv(s')
  {
    hide Awake, CellOk;
    BaseIsNatural(s);
    forall d | 0 <= d < |s'.producers|
      ensures ProducerOk(s', d)
    {
      assert ProducerOk(s, d);
    }
    CellsStay(s, s');
    if s'.producers[c].pc.Returned? {
      AwakeByEdge(s');
    } else {
      HolderAwake(s, s', c);
    }
  }

  lemma WaitSlotKeeps<T>(s: State<T>, c: nat)
    requires Inv(s) && c < |s.producers| && s.producers[c].pc.WaitSlot?
    ensures var r := ProduceStep(s, c, false); r.Some? ==> Inv(r.value)
  {
    var r := ProduceStep(s, c, false);
    if r.Some? {
      var p := s.producers[c].pc.p;
      FreeSlotIsInWindow(s, c, p);
      assert ProducerOk(s, c);
      assert ProducerOk(r.value, c);
      HolderAdvances(s, r.value, c);
    }
  }

  lemma WriteKeeps<T>(s: State<T>, c: nat)
    requires Inv(s) && c < |s.producers| && s.producers[c].pc.Write?
    ensures var r := ProduceStep(s, c, false); r.Some? && Inv(r.value)
  {
    var s', p, cap := ProduceStep(s, c, false).value, s.producers[c].pc.p, |s.cells|;
    BaseIsNatural(s);
    assert ProducerOk(s, c);
    hide Awake;
    forall d | 0 <= d < |s'.producers|
      ensures ProducerOk(s', d)
    {
      assert ProducerOk(s, d);
      if d != c && s.producers[d].pc.Commit? {
        SlotsApart(Base(s), cap, p, s.producers[d].pc.p);
      }
    }
    forall q | Base(s) <= q < Base(s) + cap
      ensures CellOk(s', q)
    {
      assert CellOk(s, q);
      if q != p {
        SlotsApart(Base(s), cap, p, q);
      }
    }
    HolderAwake(s, s', c);
  }

  lemma CommitKeeps<T>(s: State<T>, c: nat)
    requires Inv(s) && c < |s.producers| && s.producers[c].pc.Commit?
    ensures var r := ProduceStep(s, c, false); r.Some? && Inv(r.value)
  {
    assert ProducerOk(s, c);
    var s', p, cap := ProduceStep(s, c, false).value, s.producers[c].pc.p, |s.cells|;
    BaseIsNatural(s);
    hide Awake;
    forall d | 0 <= d < |s'.producers|
      ensures ProducerOk(s', d)
    {
      assert ProducerOk(s, d);
    }
    forall q | Base(s) <= q < Base(s) + cap
      ensures CellOk(s', q)
    {
      assert CellOk(s, q);
      if q != p {
        SlotsApart(Base(s), cap, p, q);
      }
    }
    assert Items(s'.log, Finished(s)) == Items(s.log, Finished(s));
    HolderAwake(s, s', c);
  }

  lemma WakeKeeps<T>(s: State<T>, c: nat)
    requires Inv(s) && c < |s.producers| && s.producers[c].pc.Wake?
    ensures var r := ProduceStep(s, c, false); r.Some? && Inv(r.value)
  {
    assert ProducerOk(s, c);
    HolderAdvances(s, ProduceStep(s, c, false).value, c);
  }

  lemma ProduceKeeps<T>(s: State<T>, c: nat, spurious: bool)
    requires Inv(s) && c < |s.producers|
    ensures var r := ProduceStep(s, c, spurious); r.Some? ==> Inv(r.value)
  {
    hide WorkerOk, BackLink, CellOk, Awake;
    var pc := s.producers[c].pc;
    assert ProducerOk(s, c);
    match pc
    case Start => LocalKeeps(s, c, LoadHead(s.tail));
    case LoadHead(t) =>
      if !Full(t, s.head, |s.cells|) {
        NotFullFits(t, s.head, |s.cells|);
      }
      LocalKeeps(s, c, if Full(t, s.head, |s.cells|) then Refused else Cas(t));
    case Cas(t) =>
      if spurious || s.tail != t {
        LocalKeeps(s, c, LoadHead(s.tail));
      } else {
        ReserveKeeps(s, c);
      }
    case WaitSlot(p) => WaitSlotKeeps(s, c);
    case Write(p) => WriteKeeps(s, c);
    case Commit(p) => CommitKeeps(s, c);
    case Wake(p) => WakeKeeps(s, c);
    case _ =>
  }

  /** The worker moves on without touching the slots, the head or the run tasks. */
  lemma WorkerMoves<T>(s: State<T>, s': State<T>)
    requires Inv(s) && s' == s.(worker := s'.worker, ready := s'.ready, counter := s'.counter)
    requires Base(s') == Base(s) && Finished(s') == Finished(s) && s'.worker.Clear? == s.worker.Clear? == false
    requires WorkerOk(s') && Awake(s')
    ensures Inv(s')
  {
    hide Awake, WorkerOk;
    BaseIsNatural(s);
    forall d | 0 <= d < |s'.producers|
      ensures ProducerOk(s', d)
    {
      assert ProducerOk(s, d);
    }
    CellsStay(s, s');
  }

  lemma EpollKeeps<T>(s: State<T>)
    requires Inv(s) && s.worker == EpollWait && s.ready
    ensures Inv(WorkStep(s, false).value)
  {
    hide ProducerOk, BackLink, CellOk;
    var s' := WorkStep(s, false).value;
    forall p | s.head <= p < |s.log| && WakePending(s, p)
      ensures WakePending(s', p)
    {
    }
    assert Awake(s');
    WorkerMoves(s, s');
  }

  lemma LookingKeeps<T>(s: State<T>)
    requires Inv(s) && (s.worker.ReadEvent? || s.worker.PopHead? || s.worker.PopTail?)
    ensures var r := WorkStep(s, false); r.Some? && Inv(r.value)
  {
    hide ProducerOk, BackLink, CellOk, WakePending;
    var s' := WorkStep(s, false).value;
    assert WorkerOk(s');
    assert Base(s') == Base(s);
    assert Finished(s') == Finished(s);
    assert Awake(s');
    WorkerMoves(s, s');
  }

  /** The committed flag the worker tests is that of the position at the head. */
  lemma CheckKeeps<T>(s: State<T>)
    requires Inv(s) && s.worker.CheckCommitted?
    ensures var r := WorkStep(s, false); r.Some? && Inv(r.value)
  {
    hide ProducerOk, BackLink;
    assert CellOk(s, s.head);
    WorkerMoves(s, WorkStep(s, false).value);
  }

  lemma AwakeWhenUp<T>(s: State<T>)
    requires s.worker != EpollWait
    ensures Awake(s)
  {
  }

  lemma PopCasKeeps<T>(s: State<T>, spurious: bool)
    requires Inv(s) && s.worker.PopCas?
    ensures var r := WorkStep(s, spurious); r.Some? && Inv(r.value)
  {
    var s' := WorkStep(s, spurious).value;
    hide BackLink, Awake;
    if spurious {
      assert Awake(s') by { AwakeWhenUp(s'); }
      WorkerMoves(s, s');
    } else {
      forall d | 0 <= d < |s'.producers|
        ensures ProducerOk(s', d)
      {
        assert ProducerOk(s, d);
      }
      forall p | Base(s') <= p < Base(s') + |s'.cells|
        ensures CellOk(s', p)
      {
        assert CellOk(s, p);
      }
      AwakeWhenUp(s');
    }
  }

  lemma MoveKeeps<T>(s: State<T>)
    requires Inv(s) && s.worker.Move?
    ensures var r := WorkStep(s, false); r.Some? && Inv(r.value)
  {
    var s', h, cap := WorkStep(s, false).value, s.worker.h, |s.cells|;
    hide BackLink, Awake;
    assert CellOk(s, h);
    forall d | 0 <= d < |s'.producers|
      ensures ProducerOk(s', d)
    {
      assert ProducerOk(s, d);
      if s.producers[d].pc.Commit? {
        SlotsApart(h, cap, h, s.producers[d].pc.p);
      }
    }
    forall p | Base(s') <= p < Base(s') + cap
      ensures CellOk(s', p)
    {
      assert CellOk(s, p);
      if p != h {
        SlotsApart(h, cap, h, p);
      }
    }
    AwakeWhenUp(s');
  }

  /** Clearing the flag opens the slot for the position one lap ahead, which has not been committed. */
  lemma ClearKeeps<T>(s: State<T>)
    requires Inv(s) && s.worker.Clear?
    ensures var r := WorkStep(s, false); r.Some? && Inv(r.value)
  {
    var s', h, cap := WorkStep(s, false).value, s.worker.h, |s.cells|;
    hide BackLink, Awake;
    forall d | 0 <= d < |s'.producers|
      ensures ProducerOk(s', d)
    {
      assert ProducerOk(s, d);
    }
    forall p | Base(s') <= p < Base(s') + cap
      ensures CellOk(s', p)
    {
      if p == h + cap {
        Bytes.ModLapBefore(p, cap);
      } else {
        assert CellOk(s, p);
        SlotsApart(h, cap, h, p);
      }
    }
    AwakeWhenUp(s');
  }

  lemma RunKeepsTask<T>(s: State<T>)
    requires Inv(s) && s.worker.RunTask?
    ensures var r := WorkStep(s, false); r.Some? && Inv(r.value)
  {
    var s' := WorkStep(s, false).value;
    hide BackLink, Awake;
    forall d | 0 <= d < |s'.producers|
      ensures ProducerOk(s', d)
    {
      assert ProducerOk(s, d);
    }
    CellsStay(s, s');
    assert Items(s.log, s.head) == Items(s.log, s.head - 1) + [Some(s.log[s.head - 1].item)];
    AwakeWhenUp(s');
  }

  lemma WorkKeeps<T>(s: State<T>, spurious: bool)
    requires Inv(s)
    ensures var r := WorkStep(s, spurious); r.Some? ==> Inv(r.value)
  {
    hide ProducerOk, BackLink, CellOk, Awake;
    match s.worker
    case EpollWait => if s.ready { EpollKeeps(s); }
    case ReadEvent => LookingKeeps(s);
    case PopHead => LookingKeeps(s);
    case PopTail(_) => LookingKeeps(s);
    case CheckCommitted(_) => CheckKeeps(s);
    case PopCas(_) => PopCasKeeps(s, spurious);
    case Move(_) => MoveKeeps(s);
    case Clear(_, _) => ClearKeeps(s);
    case RunTask(_) => RunKeepsTask(s);
  }

  lemma WakeAnyTime<T>(s: State<T>)
    requires Inv(s)
    ensures Inv(s.(counter := s.counter + 1, ready := true))
  {
    var s' := s.(counter := s.counter + 1, ready := true);
    hide Awake;
    BaseIsNatural(s);
    forall d | 0 <= d < |s'.producers|
      ensures ProducerOk(s', d)
    {
      assert ProducerOk(s, d);
    }
    CellsStay(s, s');
    AwakeByEdge(s');
  }

  lemma NextKeeps<T>(s: State<T>, a: Action<T>)
    requires Inv(s)
    ensures var r := Next(s, a); r.Some? ==> Inv(r.value) && |r.value.cells| == |s.cells|
  {
    hide ProducerOk, BackLink, CellOk, WorkerOk, Awake;
    match a
    case Call(item) => CallKeeps(s, item);
    case Produce(c, spurious) => if c < |s.producers| { ProduceKeeps(s, c, spurious); }
    case Work(spurious) => WorkKeeps(s, spurious);
    case ExtraWake => WakeAnyTime(s);
  }

  lemma {:induction false} RunKeeps<T>(cap: nat, tr: seq<State<T>>, acts: seq<Action<T>>, n: nat)
    requires Run(cap, tr, acts) && 0 < cap < SIZE_MAX_PLUS_1 && n < |tr|
    ensures Inv(tr[n])
  {
    hide Inv, Next;
    if n == 0 {
      InvInit<T>(cap);
    } else {
      RunKeeps(cap, tr, acts, n - 1);
      assert StepAt(tr, acts, n - 1);
      NextKeeps(tr[n - 1], acts[n - 1]);
    }
  }
}
