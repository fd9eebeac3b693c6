/**
 * The broadcast ring as a transition system: any number of send calls and up to eight readers, interleaved
 * one shared-memory access at a time. One definition serves two number systems, so that the ring
 * with uint32 counters can be compared step for step with the ring whose counters never wrap.
 */
module Ring {
  import opened Bytes
  import opened Slicing
  import opened Options

  const MAX_READER_COUNT: nat := 8

  datatype Arith = Unbounded | Wrap32

  function Add(ar: Arith, x: nat, n: nat): nat {
    if ar.Unbounded? then x + n else (x + n) % U32
  }

  /** A head that has overtaken a stale tail gives a huge backlog in both number systems. */
  function Sub(ar: Arith, x: nat, y: nat): nat {
    if ar.Unbounded? && y <= x then x - y else (x - y) % U32
  }

  /** What stays fixed while sends are in flight: the reader set is the bitmask m_reader_flag. */
  datatype Config = Config(slotCount: nat, slotSize: nat, readers: set<nat>)
  {
    ghost predicate Valid() {
      slotCount > 0 && slotSize >= 6 && forall r :: r in readers ==> r < MAX_READER_COUNT
    }

    function Need(msg: Message): nat
      requires slotSize >= 6
    {
      Slicing.Need(slotSize, |msg.data|)
    }

    /** What send() checks of a message, and the size for which the uint32 slot count does not wrap. */
    predicate Sendable(msg: Message) {
      |msg.data| > 0 && 6 + |msg.data| + slotSize - 1 < U32
    }
  }

  /** History: one reservation, in the order of the successful tail exchanges. */
  datatype Entry = Entry(call: nat, start: nat, msg: Message, stamped: nat, posted: nat, dead: bool)

  /** History: the reservation and the slice that own a sequence number. */
  datatype Own = Own(m: nat, k: nat)

  datatype SenderPc =
    | Start
    | Scan(oldTail: nat, i: nat, slow: nat, maxUsed: nat)
    | Cas(oldTail: nat)
    | Fill(m: nat, at: nat, k: nat, idx: nat)
    | Stamp(m: nat, at: nat, k: nat, idx: nat)
    | Post(m: nat, i: nat)
    | Returned(m: nat)
    | Refused
    | Dead

  datatype Sender = Sender(msg: Message, pc: SenderPc)

  datatype ReaderPc = Idle | Loop | Check(tail: nat) | Copy | Publish(fin: bool)

  /**
   * `pos` and `waits` are history: the unwrapped head and the number of completed sem_waits. A reader that joins
   * later starts with the waits that make up for the posts it missed, less the tokens it finds.
   */
  datatype Reader = Reader(pc: ReaderPc, head: nat, pos: nat, asm: Assembly, delivered: seq<Message>, waits: int)

  datatype State = State(
    tail: nat, heads: seq<nat>, tokens: seq<nat>, slots: seq<Slot>,
    senders: seq<Sender>, readers: seq<Reader>,
    log: seq<Entry>, own: seq<Own>)
  {
    /** The indices used by Next are in range; every step keeps this. */
    ghost predicate Shaped(cfg: Config) {
      && cfg.Valid()
      && |heads| == |tokens| == |readers| == MAX_READER_COUNT
      && |slots| == cfg.slotCount
      && (forall i :: 0 <= i < |slots| ==> |slots[i].data| == cfg.slotSize)
      && (forall c :: 0 <= c < |senders| ==> SenderShaped(cfg, senders[c]))
    }

    ghost predicate SenderShaped(cfg: Config, snd: Sender)
      requires cfg.slotSize >= 6
    {
      match snd.pc
      case Scan(_, i, _, _) => i <= MAX_READER_COUNT
      case Fill(m, _, _, idx) => m < |log| && idx <= |snd.msg.data|
      case Stamp(m, _, k, idx) =>
        && m < |log| && idx <= |snd.msg.data|
        && idx + Copied(cfg.slotSize, |snd.msg.data|, k == 0, idx) <= |snd.msg.data|
      case Post(m, i) => m < |log| && i <= MAX_READER_COUNT
      case _ => true
    }
  }

  datatype Action =
    | Call(msg: Message)
    | LoadTail(c: nat)
    | LoadHead(c: nat)
    | Decide(c: nat)
    | TryCas(c: nat, spurious: bool)
    | Scribble(c: nat, id: nat, count: nat, data: seq<byte>)
    | FillSlot(c: nat)
    | StampSlot(c: nat)
    | PostSem(c: nat)
    | Kill(c: nat)
    | Wait(i: nat)
    | Look(i: nat)
    | CheckStamp(i: nat)
    | Timeout(i: nat)
    | CopySlot(i: nat)
    | PublishHead(i: nat)

  /** Zeroed shared memory, no call made yet. */
  function Init(cfg: Config): State {
    State(
      0, seq(MAX_READER_COUNT, _ => 0), seq(MAX_READER_COUNT, _ => 0),
      seq(cfg.slotCount, _ => Slot(0, 0, 0, seq(cfg.slotSize, _ => 0))),
      [], seq(MAX_READER_COUNT, _ => Reader(Idle, 0, 0, NOTHING, [], 0)), [], [])
  }

  function SetPc(s: State, c: nat, pc: SenderPc): State
    requires c < |s.senders|
  {
    s.(senders := s.senders[c := s.senders[c].(pc := pc)])
  }

  // ----- send_impl, one shared access per step -----

  function LoadTailStep(cfg: Config, s: State, c: nat): Option<State>
    requires s.Shaped(cfg) && c < |s.senders|
  {
    if s.senders[c].pc != Start then None
    else if cfg.Need(s.senders[c].msg) > MAX_SLICE_COUNT || cfg.readers == {} then Some(SetPc(s, c, Refused))
    else Some(SetPc(s, c, Scan(s.tail, 0, s.tail, 0)))
  }

  /** One iteration of the loop in slowest_head. */
  function LoadHeadStep(ar: Arith, cfg: Config, s: State, c: nat): Option<State>
    requires s.Shaped(cfg) && c < |s.senders|
  {
    match s.senders[c].pc
    case Scan(t, i, slow, maxUsed) =>
      if i >= MAX_READER_COUNT then None
      else
        var used := Sub(ar, t, s.heads[i]);
        Some(SetPc(s, c, if i in cfg.readers && used > maxUsed then Scan(t, i + 1, s.heads[i], used)
                         else Scan(t, i + 1, slow, maxUsed)))
    case _ => None
  }

  function DecideStep(ar: Arith, cfg: Config, s: State, c: nat): Option<State>
    requires s.Shaped(cfg) && c < |s.senders|
  {
    match s.senders[c].pc
    case Scan(t, i, slow, _) =>
      if i < MAX_READER_COUNT then None
      else
        var used := Sub(ar, t, slow);
        var refused := used >= cfg.slotCount - 1 || cfg.slotCount - 1 - used < cfg.Need(s.senders[c].msg);
        Some(SetPc(s, c, if refused then Refused else Cas(t)))
    case _ => None
  }

  /** The exchange may fail spuriously; a failed one starts the loop again. */
  function TryCasStep(ar: Arith, cfg: Config, s: State, c: nat, spurious: bool): Option<State>
    requires s.Shaped(cfg) && c < |s.senders|
  {
    match s.senders[c].pc
    case Cas(t) =>
      if spurious || s.tail != t then Some(SetPc(s, c, Start))
      else
        var need := cfg.Need(s.senders[c].msg);
        var m := |s.log|;
        Some(SetPc(s, c, Fill(m, t, 0, 0)).(
             tail := Add(ar, t, need),
             log := s.log + [Entry(c, |s.own|, s.senders[c].msg, 0, 0, false)],
             own := s.own + seq(need, (k: nat) => Own(m, k))))
    case _ => None
  }

  /** In the middle of writing its slot: bytes, count and id may be anything, the stamp is still the old one. */
  function ScribbleStep(cfg: Config, s: State, c: nat, id: nat, count: nat, data: seq<byte>): Option<State>
    requires s.Shaped(cfg) && c < |s.senders|
  {
    match s.senders[c].pc
    case Fill(_, at, _, _) =>
      var p := at % cfg.slotCount;
      if |data| != cfg.slotSize then None else Some(s.(slots := s.slots[p := Slot(s.slots[p].stamp, id, count, data)]))
    case _ => None
  }

  /** Bytes, count (first slice only) and id are complete. */
  function FillSlotStep(cfg: Config, s: State, c: nat): Option<State>
    requires s.Shaped(cfg) && c < |s.senders|
  {
    match s.senders[c].pc
    case Fill(m, at, k, idx) =>
      var msg := s.senders[c].msg;
      var p := at % cfg.slotCount;
      var slot := s.slots[p];
      if idx + Copied(cfg.slotSize, |msg.data|, k == 0, idx) > |msg.data| then None
      else
        var count := if k == 0 then cfg.Need(msg) else slot.count;
        var data := Overwrite(slot.data, Piece(cfg.slotSize, msg, k == 0, idx));
        Some(SetPc(s, c, Stamp(m, at, k, idx)).(slots := s.slots[p := Slot(slot.stamp, k, count, data)]))
    case _ => None
  }

  function StampSlotStep(ar: Arith, cfg: Config, s: State, c: nat): Option<State>
    requires s.Shaped(cfg) && c < |s.senders|
  {
    match s.senders[c].pc
    case Stamp(m, at, k, idx) =>
      var msg := s.senders[c].msg;
      var p := at % cfg.slotCount;
      var idx' := idx + Copied(cfg.slotSize, |msg.data|, k == 0, idx);
      var next := if idx' < |msg.data| then Fill(m, Add(ar, at, 1), k + 1, idx') else Post(m, 0);
      Some(SetPc(s, c, next).(
           slots := s.slots[p := s.slots[p].(stamp := Add(ar, at, 1))],
           log := s.log[m := s.log[m].(stamped := k + 1)]))
    case _ => None
  }

  /** One iteration of the loop in post_reader_sems. */
  function PostSemStep(cfg: Config, s: State, c: nat): Option<State>
    requires s.Shaped(cfg) && c < |s.senders|
  {
    match s.senders[c].pc
    case Post(m, i) =>
      if i >= MAX_READER_COUNT then Some(SetPc(s, c, Returned(m)))
      else
        Some(SetPc(s, c, Post(m, i + 1)).(
             tokens := if i in cfg.readers then s.tokens[i := s.tokens[i] + 1] else s.tokens,
             log := s.log[m := s.log[m].(posted := i + 1)]))
    case _ => None
  }

  function KillOwner(s: State, c: nat, m: nat): Option<State>
    requires c < |s.senders|
  {
    if m < |s.log| then Some(SetPc(s, c, Dead).(log := s.log[m := s.log[m].(dead := true)])) else None
  }

  /** The sending process dies; nothing it did to shared memory is undone. */
  function KillStep(s: State, c: nat): Option<State>
    requires c < |s.senders|
  {
    match s.senders[c].pc
    case Start => Some(SetPc(s, c, Dead))
    case Scan(_, _, _, _) => Some(SetPc(s, c, Dead))
    case Cas(_) => Some(SetPc(s, c, Dead))
    case Fill(m, _, _, _) => KillOwner(s, c, m)
    case Stamp(m, _, _, _) => KillOwner(s, c, m)
    case Post(m, _) => KillOwner(s, c, m)
    case _ => None
  }

  // ----- recv_impl -----

  function SetReader(s: State, i: nat, r: Reader): State
    requires i < |s.readers|
  {
    s.(readers := s.readers[i := r])
  }

  /** sem_wait: blocks (is disabled) while there is no token. */
  function WaitStep(cfg: Config, s: State, i: nat): Option<State>
    requires s.Shaped(cfg) && i in cfg.readers
  {
    var r := s.readers[i];
    if r.pc != Idle || s.tokens[i] == 0 then None
    else
      Some(SetReader(s, i, r.(pc := Loop, asm := NOTHING, waits := r.waits + 1)).(
           tokens := s.tokens[i := s.tokens[i] - 1]))
  }

  /** The end of recv_impl: an incomplete message is dropped, a non-empty one is handed over. */
  function Finish(r: Reader): Reader {
    var rc := if r.asm.count > 0 && r.asm.done < r.asm.count then 0 else r.asm.idx;
    r.(pc := Idle, asm := NOTHING,
       delivered := if rc > 0 then r.delivered + [Message(r.asm.id, r.asm.buf)] else r.delivered)
  }

  function LookStep(cfg: Config, s: State, i: nat): Option<State>
    requires s.Shaped(cfg) && i in cfg.readers
  {
    var r := s.readers[i];
    if r.pc != Loop then None
    else Some(SetReader(s, i, if r.head == s.tail then Finish(r) else r.(pc := Check(s.tail))))
  }

  function CheckStampStep(ar: Arith, cfg: Config, s: State, i: nat): Option<State>
    requires s.Shaped(cfg) && i in cfg.readers
  {
    var r := s.readers[i];
    if !r.pc.Check? then None
    else
      var seen := s.slots[r.head % cfg.slotCount].stamp == Add(ar, r.head, 1);
      Some(SetReader(s, i, r.(pc := if seen then Copy else Loop)))
  }

  function CopySlotStep(ar: Arith, cfg: Config, s: State, i: nat): Option<State>
    requires s.Shaped(cfg) && i in cfg.readers
  {
    var r := s.readers[i];
    if r.pc != Copy then None
    else
      var asm := Absorb(cfg.slotSize, r.asm, s.slots[r.head % cfg.slotCount]);
      Some(SetReader(s, i, r.(pc := Publish(asm.count > 0 && asm.done >= asm.count),
                              head := Add(ar, r.head, 1), pos := r.pos + 1, asm := asm)))
  }

  function PublishHeadStep(cfg: Config, s: State, i: nat): Option<State>
    requires s.Shaped(cfg) && i in cfg.readers
  {
    var r := s.readers[i];
    if !r.pc.Publish? then None
    else
      Some(SetReader(s, i, if r.pc.fin then Finish(r) else r.(pc := Loop)).(heads := s.heads[i := r.head]))
  }

  /** How many slots from `at` on, at most `left`, carry another stamp than their own. */
  function ScanLength(ar: Arith, cfg: Config, slots: seq<Slot>, at: nat, left: nat): (n: nat)
    requires cfg.slotCount > 0 && |slots| == cfg.slotCount
    ensures n <= left
    decreases left
  {
    if left == 0 || slots[at % cfg.slotCount].stamp == Add(ar, at, 1) then 0
    else 1 + ScanLength(ar, cfg, slots, Add(ar, at, 1), left - 1)
  }

  predicate OwnerDead(log: seq<Entry>, own: seq<Own>, at: nat) {
    at < |own| && own[at].m < |log| && log[own[at].m].dead
  }

  /** How far the stall scan runs from the reader's head. */
  function Stalled(ar: Arith, cfg: Config, s: State, i: nat): nat
    requires s.Shaped(cfg) && i in cfg.readers && s.readers[i].pc.Check?
  {
    var r := s.readers[i];
    ScanLength(ar, cfg, s.slots, r.head, Min(Sub(ar, r.pc.tail, r.head), MAX_SLICE_COUNT))
  }

  /** The code's way out of a stall, whoever owns the slots it leaves behind. */
  function SkipStep(ar: Arith, cfg: Config, s: State, i: nat): Option<State>
    requires s.Shaped(cfg) && i in cfg.readers
  {
    var r := s.readers[i];
    if !r.pc.Check? || s.slots[r.head % cfg.slotCount].stamp == Add(ar, r.head, 1) then None
    else
      var n := Stalled(ar, cfg, s, i);
      Some(SetReader(s, i, r.(pc := Publish(true), head := Add(ar, r.head, n), pos := r.pos + n,
                              asm := NOTHING.(id := r.asm.id))))
  }

  /** The stall timer fires. The guard is the environment's: only slots of dead senders are skipped. */
  function TimeoutStep(ar: Arith, cfg: Config, s: State, i: nat): Option<State>
    requires s.Shaped(cfg) && i in cfg.readers
  {
    var r := s.readers[i];
    if r.pc.Check? && forall x :: r.pos <= x < r.pos + Stalled(ar, cfg, s, i) ==> OwnerDead(s.log, s.own, x)
    then SkipStep(ar, cfg, s, i) else None
  }

  function Next(ar: Arith, cfg: Config, s: State, a: Action): Option<State>
    requires s.Shaped(cfg)
  {
    match a
    case Call(msg) =>
      if cfg.Sendable(msg) then Some(s.(senders := s.senders + [Sender(msg, Start)])) else None
    case LoadTail(c) => if c < |s.senders| then LoadTailStep(cfg, s, c) else None
    case LoadHead(c) => if c < |s.senders| then LoadHeadStep(ar, cfg, s, c) else None
    case Decide(c) => if c < |s.senders| then DecideStep(ar, cfg, s, c) else None
    case TryCas(c, spurious) => if c < |s.senders| then TryCasStep(ar, cfg, s, c, spurious) else None
    case Scribble(c, id, count, data) => if c < |s.senders| then ScribbleStep(cfg, s, c, id, count, data) else None
    case FillSlot(c) => if c < |s.senders| then FillSlotStep(cfg, s, c) else None
    case StampSlot(c) => if c < |s.senders| then StampSlotStep(ar, cfg, s, c) else None
    case PostSem(c) => if c < |s.senders| then PostSemStep(cfg, s, c) else None
    case Kill(c) => if c < |s.senders| then KillStep(s, c) else None
    case Wait(i) => if i in cfg.readers then WaitStep(cfg, s, i) else None
    case Look(i) => if i in cfg.readers then LookStep(cfg, s, i) else None
    case CheckStamp(i) => if i in cfg.readers then CheckStampStep(ar, cfg, s, i) else None
    case Timeout(i) => if i in cfg.readers then TimeoutStep(ar, cfg, s, i) else None
    case CopySlot(i) => if i in cfg.readers then CopySlotStep(ar, cfg, s, i) else None
    case PublishHead(i) => if i in cfg.readers then PublishHeadStep(cfg, s, i) else None
  }

  ghost predicate StepAt(ar: Arith, cfg: Config, tr: seq<State>, acts: seq<Action>, n: nat)
    requires n < |acts| && n + 1 < |tr|
  {
    tr[n].Shaped(cfg) && Next(ar, cfg, tr[n], acts[n]) == Some(tr[n + 1])
  }

  /** A run from fresh shared memory: acts[n] leads from tr[n] to tr[n + 1]. */
  ghost predicate Run(ar: Arith, cfg: Config, tr: seq<State>, acts: seq<Action>) {
    && |tr| == |acts| + 1
    && tr[0] == Init(cfg)
    && (forall n :: 0 <= n < |tr| ==> tr[n].Shaped(cfg))
    && (forall n :: 0 <= n < |acts| ==> StepAt(ar, cfg, tr, acts, n))
  }
}
