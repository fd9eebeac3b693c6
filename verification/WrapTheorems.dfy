/** What the ring promises as it is stored, with uint32 counters, and for which slot counts it promises it. */
module WrapTheorems {
  import opened Bytes
  import opened Options
  import opened Ring
  import opened RingInv
  import opened RingSteps
  import opened RingTheorems
  import opened RingWrap
  import opened RingDebt
  import opened RingStamps
  import opened RingSends
  import opened RingRuns

  // ----- senders in time -----

  /** No send call sees 2^32 slots being reserved between loading the tail and its exchange. */
  ghost predicate Prompt(tr: seq<State>, acts: seq<Action>) {
    forall c: nat, m: nat, n: nat :: StillTrying(tr, acts, c, m, n) ==> |tr[n].own| < |tr[m].own| + U32
  }

  lemma PunctualLoaded(s: State, c: nat)
    requires Punctual(s) && Trying(s, c)
    ensures s.tail < Loaded(s, c) + U32
  {
  }

  /** In terms of the unbounded counters: no call's tail is ever 2^32 slots old. */
  lemma PunctualIsPrompt(cfg: Config, tr: seq<State>, acts: seq<Action>)
    requires Run(Unbounded, cfg, tr, acts) && cfg.Valid() && forall n :: 0 <= n < |tr| ==> Punctual(tr[n])
    ensures Prompt(tr, acts)
  {
    hide Inv, Next, Init, Trying, Loaded, Punctual;
    forall c: nat, m: nat, n: nat | StillTrying(tr, acts, c, m, n)
      ensures |tr[n].own| < |tr[m].own| + U32
    {
      LoadedSince(cfg, tr, acts, c, m, n);
      RunKeeps(cfg, tr, acts, n);
      TailOf(cfg, tr[n]);
      PunctualLoaded(tr[n], c);
    }
  }

  lemma TryingWraps(s: State, c: nat)
    ensures Trying(Wrap(s), c) <==> Trying(s, c)
    ensures Wrap(s).own == s.own
  {
  }

  lemma PromptCarriesOver(tr: seq<State>, tr': seq<State>, acts: seq<Action>)
    requires |tr| == |tr'| && Prompt(tr, acts)
    requires forall n, c: nat :: 0 <= n < |tr| ==> (Trying(tr[n], c) <==> Trying(tr'[n], c))
    requires forall n :: 0 <= n < |tr| ==> tr[n].own == tr'[n].own
    ensures Prompt(tr', acts)
  {
    hide Trying;
    forall c: nat, m: nat, n: nat | StillTrying(tr', acts, c, m, n)
      ensures |tr'[n].own| < |tr'[m].own| + U32
    {
      assert StillTrying(tr, acts, c, m, n);
    }
  }

  /** Wrapping changes nothing about who is in time. */
  lemma PromptWraps(w: seq<State>, tr: seq<State>, acts: seq<Action>)
    requires |w| == |tr| && forall n :: 0 <= n < |w| ==> w[n] == Wrap(tr[n])
    ensures Prompt(w, acts) <==> Prompt(tr, acts)
  {
    hide Wrap, Trying, Prompt;
    forall n, c: nat | 0 <= n < |w|
      ensures Trying(w[n], c) <==> Trying(tr[n], c)
    {
      TryingWraps(tr[n], c);
    }
    forall n | 0 <= n < |w|
      ensures w[n].own == tr[n].own
    {
      TryingWraps(tr[n], 0);
    }
    if Prompt(w, acts) {
      PromptCarriesOver(w, tr, acts);
    }
    if Prompt(tr, acts) {
      PromptCarriesOver(tr, w, acts);
    }
  }

  lemma PromptPrefix(tr: seq<State>, acts: seq<Action>, k: nat)
    requires Prompt(tr, acts) && k <= |acts| && |tr| == |acts| + 1
    ensures Prompt(tr[..k + 1], acts[..k])
  {
    hide Trying;
    var front := tr[..k + 1];
    assert forall x :: 0 <= x < |front| ==> front[x] == tr[x];
    forall c: nat, m: nat, n: nat | StillTrying(front, acts[..k], c, m, n)
      ensures |front[n].own| < |front[m].own| + U32
    {
      forall x | m < x <= n
        ensures Trying(tr[x], c)
      {
        assert Trying(front[x], c);
      }
      assert StillTrying(tr, acts, c, m, n);
    }
  }

  // ----- nothing is mistaken -----

  lemma ExchangeInTime(cfg: Config, tr: seq<State>, acts: seq<Action>, k: nat, c: nat)
    requires k < |acts| && Run(Unbounded, cfg, tr, acts[..k]) && cfg.Valid()
    requires Prompt(tr, acts[..k]) && c < |tr[k].senders| && tr[k].senders[c].pc.Cas?
    ensures Distinct32(tr[k].senders[c].pc.oldTail, tr[k].tail)
  {
    hide Inv, Next, Init, StillTrying;
    var m := LoadedBefore(cfg, tr, acts[..k], k, c);
    RunKeeps(cfg, tr, acts[..k], k);
    TailOf(cfg, tr[k]);
    CasTailBound(cfg, tr[k], c);
  }

  lemma ReadableTells(cfg: Config, s: State, i: nat)
    requires Inv(cfg, s) && i in cfg.readers && s.readers[i].pc.Check? && Readable(s, i) && PowerOfTwo(cfg.slotCount)
    ensures Tells(s.slots, s.readers[i].head) && ScanTells(cfg, s, i)
  {
    hide LogInv, MemInv, HeadsInv, SenderOk, BackLink, ReaderOk, TokensInv, Tells;
    ReaderNear(cfg, s, i);
  }

  /** The two ways to keep stamps young: a ring of up to 65536 slots, or nobody dies. */
  ghost predicate SmallOrHealthy(cfg: Config, acts: seq<Action>) {
    cfg.slotCount <= 0x1_0000 || Healthy(acts)
  }

  lemma LookUnmistaken(cfg: Config, tr: seq<State>, acts: seq<Action>, k: nat, i: nat)
    requires k < |acts| && Run(Unbounded, cfg, tr, acts[..k]) && cfg.Valid() && PowerOfTwo(cfg.slotCount)
    requires SmallOrHealthy(cfg, acts) && i in cfg.readers && tr[k].readers[i].pc.Check?
    ensures Tells(tr[k].slots, tr[k].readers[i].head) && ScanTells(cfg, tr[k], i)
  {
    hide Inv, Next, Init, Readable, StampsFresh, Tells, ScanTells, LapInv;
    RunKeeps(cfg, tr, acts[..k], k);
    if cfg.slotCount <= 0x1_0000 {
      StampsAlwaysTell(cfg, tr, acts[..k], k, i);
      ReadableTells(cfg, tr[k], i);
    } else {
      HealthyIsFresh(cfg, tr, acts[..k], k);
      TameTells(cfg, tr[k], i);
    }
  }

  lemma PromptIsUnmistaken(cfg: Config, tr: seq<State>, acts: seq<Action>, k: nat)
    requires k < |acts| && Run(Unbounded, cfg, tr, acts[..k]) && cfg.Valid() && PowerOfTwo(cfg.slotCount)
    requires SmallOrHealthy(cfg, acts) && Prompt(tr, acts[..k])
    ensures Unmistaken(cfg, tr[k], acts[k])
  {
    hide Inv, Next, Init, Prompt, Tells, ScanTells, Distinct32, SmallOrHealthy;
    match acts[k]
    case TryCas(c, spurious) =>
      if c < |tr[k].senders| && tr[k].senders[c].pc.Cas? {
        ExchangeInTime(cfg, tr, acts, k, c);
      }
    case CheckStamp(i) =>
      if i in cfg.readers && tr[k].readers[i].pc.Check? {
        LookUnmistaken(cfg, tr, acts, k, i);
      }
    case Timeout(i) =>
      if i in cfg.readers && tr[k].readers[i].pc.Check? {
        LookUnmistaken(cfg, tr, acts, k, i);
      }
    case _ =>
  }

  /** A uint32 run with senders in time, and a small ring or nobody dying, is the image of an unbounded run. */
  lemma {:induction false} PromptUnwraps(cfg: Config, w: seq<State>, acts: seq<Action>) returns (tr: seq<State>)
    requires Run(Wrap32, cfg, w, acts) && cfg.Valid() && PowerOfTwo(cfg.slotCount)
    requires SmallOrHealthy(cfg, acts) && Prompt(w, acts)
    ensures Twin(cfg, w, tr, acts)
    decreases |acts|
  {
    hide Inv, Next, Init, Wrap, Unmistaken, StepAt, Prompt;
    InitWraps(cfg);
    if acts == [] {
      tr := [Init(cfg)];
      InvInit(cfg);
    } else {
      var k := |acts| - 1;
      RunPrefix(Wrap32, cfg, w, acts, k);
      PromptPrefix(w, acts, k);
      var pre := PromptUnwraps(cfg, w[..k + 1], acts[..k]);
      PromptWraps(w[..k + 1], pre, acts[..k]);
      PromptIsUnmistaken(cfg, pre, acts, k);
      tr := LastUnwraps(cfg, w, acts, pre);
    }
  }

  /** So such a run never mistakes a value. */
  lemma PromptIsNeverMistaken(cfg: Config, w: seq<State>, acts: seq<Action>)
    requires Run(Wrap32, cfg, w, acts) && cfg.Valid() && PowerOfTwo(cfg.slotCount)
    requires SmallOrHealthy(cfg, acts) && Prompt(w, acts)
    ensures NeverMistaken(cfg, acts)
  {
    hide Run, NeverMistaken, Prompt, Twin;
    var tr := PromptUnwraps(cfg, w, acts);
    TwinExactlyIfUnmistaken(cfg, w, acts);
  }

  // ----- the promises -----

  lemma WrapKeepsHistory(cfg: Config, s: State, i: nat)
    requires s.Shaped(cfg) && i in cfg.readers
    ensures var w := Wrap(s);
            && w.log == s.log && |w.readers| == |s.readers| && |w.tokens| == |s.tokens| && |w.heads| == |s.heads|
            && w.readers[i].delivered == s.readers[i].delivered && w.readers[i].waits == s.readers[i].waits
            && w.tokens[i] == s.tokens[i] && w.tail == W(s.tail) && w.heads[i] == W(s.heads[i])
  {
  }

  /**
   * The delivery theorem for the ring as it is stored: while nobody dies and senders are in time, each reader's
   * deliveries are a prefix of the reservation order, whatever the number of slots.
   */
  lemma WrappedRingDelivers(cfg: Config, w: seq<State>, acts: seq<Action>, n: nat, i: nat)
    requires Run(Wrap32, cfg, w, acts) && cfg.Valid() && PowerOfTwo(cfg.slotCount)
    requires Healthy(acts) && Prompt(w, acts) && n < |w| && i in cfg.readers
    ensures w[n].readers[i].delivered <= Messages(w[n].log)
  {
    hide Inv, Next, Init, Prompt, AllLive, Wrap;
    var tr := PromptUnwraps(cfg, w, acts);
    RunKeeps(cfg, tr, acts, n);
    HealthyIsLive(cfg, tr, acts, n);
    LiveDelivery(cfg, tr[n], i);
    WrapKeepsHistory(cfg, tr[n], i);
  }

  /**
   * What holds of every uint32 run of a ring of up to 65536 slots with senders in time, whoever dies and whatever
   * times out: deliveries are a prefix of the published messages, the capacity bound holds of the uint32 backlogs, the
   * tokens are conserved, and each timeout costs a message.
   */
  lemma WrappedRunKeepsItsPromises(cfg: Config, w: seq<State>, acts: seq<Action>, n: nat, i: nat)
    requires Run(Wrap32, cfg, w, acts) && cfg.Valid() && PowerOfTwo(cfg.slotCount) && cfg.slotCount <= 0x1_0000
    requires Prompt(w, acts) && n < |w| && i in cfg.readers
    ensures w[n].readers[i].delivered <= Complete(cfg, w[n].log, |w[n].log|)
    ensures Sub(Wrap32, w[n].tail, w[n].heads[i]) <= cfg.slotCount - 1
    ensures w[n].tokens[i] + w[n].readers[i].waits == Posts(w[n].log, i) <= |w[n].log|
    ensures |w[n].readers[i].delivered| + Timeouts(acts, n, i) <= |Complete(cfg, w[n].log, |w[n].log|)|
  {
    hide Inv, Next, Init, Prompt, Complete, Posts, Wrap, Timeouts;
    var tr := PromptUnwraps(cfg, w, acts);
    DeliversPublishedPrefix(cfg, tr, acts, n, i);
    CapacityHolds(cfg, tr, acts, n, i);
    TokensAreConserved(cfg, tr, acts, n, i);
    TimeoutsAreDebt(cfg, tr, acts, n, i);
    WrapKeepsHistory(cfg, tr[n], i);
    WrapSub(tr[n].tail, tr[n].heads[i]);
  }

  /** The slot that `c` writes, in terms of the uint32 values: no other writer's, not copied, not in any backlog. */
  ghost predicate WrappedExclusive(cfg: Config, s: State, c: nat)
    requires s.Shaped(cfg) && c < |s.senders| && Writing(s.senders[c])
  {
    var at := s.senders[c].pc.at;
    var p := at % cfg.slotCount;
    && (forall d :: 0 <= d < |s.senders| && d != c && Writing(s.senders[d]) ==>
                      s.senders[d].pc.at % cfg.slotCount != p)
    && (forall i, k: nat :: i in cfg.readers && k < Sub(Wrap32, s.tail, s.heads[i]) ==>
                      Add(Wrap32, s.heads[i], k) == at || Add(Wrap32, s.heads[i], k) % cfg.slotCount != p)
    && (forall i :: i in cfg.readers && s.readers[i].pc == Copy ==> s.readers[i].head % cfg.slotCount != p)
  }

  lemma WrappedWriters(cfg: Config, s: State, c: nat)
    requires s.Shaped(cfg) && PowerOfTwo(cfg.slotCount)
    requires c < |s.senders| && Writing(s.senders[c]) && Exclusive(cfg, s, c)
    ensures var w := Wrap(s);
            var p := w.senders[c].pc.at % cfg.slotCount;
            && (forall d :: 0 <= d < |w.senders| && d != c && Writing(w.senders[d]) ==>
                          w.senders[d].pc.at % cfg.slotCount != p)
            && (forall i :: i in cfg.readers && w.readers[i].pc == Copy ==> w.readers[i].head % cfg.slotCount != p)
  {
    var w := Wrap(s);
    WrapIndex(s.senders[c].pc.at, cfg.slotCount);
    forall d | 0 <= d < |w.senders| && d != c && Writing(w.senders[d])
      ensures w.senders[d].pc.at % cfg.slotCount != w.senders[c].pc.at % cfg.slotCount
    {
      WrapIndex(s.senders[d].pc.at, cfg.slotCount);
    }
    forall i | i in cfg.readers && w.readers[i].pc == Copy
      ensures w.readers[i].head % cfg.slotCount != w.senders[c].pc.at % cfg.slotCount
    {
      WrapIndex(s.readers[i].head, cfg.slotCount);
    }
  }

  lemma BacklogApart(cfg: Config, s: State, c: nat, i: nat, k: nat)
    requires s.Shaped(cfg) && PowerOfTwo(cfg.slotCount) && c < |s.senders| && Writing(s.senders[c])
    requires Exclusive(cfg, s, c) && i in cfg.readers && s.heads[i] + k < s.tail
    ensures var at := s.senders[c].pc.at;
            var x := Add(Wrap32, W(s.heads[i]), k);
            x == W(at) || x % cfg.slotCount != W(at) % cfg.slotCount
  {
    var at := s.senders[c].pc.at;
    WrapIndex(at, cfg.slotCount);
    WrapAdd(s.heads[i], k);
    WrapIndex(s.heads[i] + k, cfg.slotCount);
    assert Wanted(cfg, s, i, s.heads[i] + k);
  }

  lemma WrappedBacklogs(cfg: Config, s: State, c: nat)
    requires Inv(cfg, s) && PowerOfTwo(cfg.slotCount)
    requires c < |s.senders| && Writing(s.senders[c]) && Exclusive(cfg, s, c)
    ensures var w := Wrap(s);
            var at := w.senders[c].pc.at;
            forall i, k: nat :: i in cfg.readers && k < Sub(Wrap32, w.tail, w.heads[i]) ==>
                          Add(Wrap32, w.heads[i], k) == at
                          || Add(Wrap32, w.heads[i], k) % cfg.slotCount != at % cfg.slotCount
  {
    hide LogInv, MemInv, SenderOk, BackLink, ReaderOk, TokensInv, Settled, Exclusive, Add;
    var w, at := Wrap(s), s.senders[c].pc.at;
    forall i, k: nat | i in cfg.readers && k < Sub(Wrap32, w.tail, w.heads[i])
      ensures Add(Wrap32, w.heads[i], k) == W(at) || Add(Wrap32, w.heads[i], k) % cfg.slotCount != W(at) % cfg.slotCount
    {
      WrapSub(s.tail, s.heads[i]);
      BacklogApart(cfg, s, c, i, k);
    }
  }

  lemma ExclusiveWraps(cfg: Config, s: State, c: nat)
    requires Inv(cfg, s) && PowerOfTwo(cfg.slotCount) && c < |s.senders| && Writing(s.senders[c])
    requires Wrap(s).Shaped(cfg) && Writing(Wrap(s).senders[c])
    ensures WrappedExclusive(cfg, Wrap(s), c)
  {
    hide LogInv, MemInv, HeadsInv, SenderOk, BackLink, ReaderOk, TokensInv, Exclusive;
    WriterOwnsItsSlotNow(cfg, s, c);
    WrappedWriters(cfg, s, c);
    WrappedBacklogs(cfg, s, c);
  }

  lemma WritingWraps(s: State, c: nat)
    requires c < |Wrap(s).senders|
    ensures c < |s.senders| && (Writing(Wrap(s).senders[c]) <==> Writing(s.senders[c]))
  {
  }

  /** Slot exclusivity for the ring as it is stored. */
  lemma WrappedWriterOwnsItsSlot(cfg: Config, w: seq<State>, acts: seq<Action>, n: nat, c: nat)
    requires Run(Wrap32, cfg, w, acts) && cfg.Valid() && PowerOfTwo(cfg.slotCount) && cfg.slotCount <= 0x1_0000
    requires Prompt(w, acts) && n < |w| && c < |w[n].senders| && Writing(w[n].senders[c])
    ensures WrappedExclusive(cfg, w[n], c)
  {
    hide Inv, Next, Init, Prompt, WrappedExclusive;
    var tr := PromptUnwraps(cfg, w, acts);
    RunKeeps(cfg, tr, acts, n);
    assert w[n].Shaped(cfg) && w[n] == Wrap(tr[n]);
    WritingWraps(tr[n], c);
    ExclusiveWraps(cfg, tr[n], c);
  }

  // ----- ... and exactly for these slot counts -----

  /** A reader of a uint32 run is about to copy a slot that nobody published. */
  ghost predicate CopiesUnpublished(cfg: Config, w: seq<State>, acts: seq<Action>) {
    && Run(Wrap32, cfg, w, acts) && 0 in cfg.readers && |w[|acts|].readers| > 0
    && w[|acts|].readers[0].pc == Copy && !Published(w[|acts|].log, w[|acts|].own, w[|acts|].readers[0].pos)
  }

  lemma CopyingRuns(cfg: Config, w: seq<State>, acts: seq<Action>)
    requires CopiesUnpublished(cfg, w, acts)
    ensures Run(Wrap32, cfg, w, acts)
  {
  }

  /** The uint32 look at a stamp that is a whole turn of the counter away from the right one. */
  lemma MistakenLook(cfg: Config, s: State) returns (last: State)
    requires Inv(cfg, s) && PowerOfTwo(cfg.slotCount) && 0 in cfg.readers && s.readers[0].pc.Check?
    requires s.readers[0].head == U32 - 1 && s.slots[(U32 - 1) % cfg.slotCount].stamp == 0
    ensures Wrap(s).Shaped(cfg) && Next(Wrap32, cfg, Wrap(s), CheckStamp(0)) == Some(last) && last.Shaped(cfg)
    ensures last.senders == Wrap(s).senders && last.own == s.own == Wrap(s).own && last.log == s.log
    ensures |last.readers| > 0
    ensures last.readers[0].pc == Copy && last.readers[0].pos == U32 - 1
    ensures s.Shaped(cfg) && !Unmistaken(cfg, s, CheckStamp(0))
  {
    hide LogInv, MemInv, HeadsInv, SenderOk, BackLink, TokensInv, AsmOk, Complete, Settled, Turn;
    assert ReaderOk(cfg, s.log, s.own, s.heads[0], s.readers[0]);
    WrapShaped(cfg, s);
    ZeroedSlotIsMistaken(s.slots);
    last := Next(Wrap32, cfg, Wrap(s), CheckStamp(0)).value;
  }

  lemma OneMoreLook(cfg: Config, v: seq<State>, acts: seq<Action>, i: nat, last: State)
    requires Run(Wrap32, cfg, v, acts) && Prompt(v, acts)
    requires v[|acts|].Shaped(cfg) && Next(Wrap32, cfg, v[|acts|], CheckStamp(i)) == Some(last) && last.Shaped(cfg)
    requires last.senders == v[|acts|].senders && last.own == v[|acts|].own
    ensures Run(Wrap32, cfg, v + [last], acts + [CheckStamp(i)]) && Prompt(v + [last], acts + [CheckStamp(i)])
  {
    hide Next, Init;
    var w, acts' := v + [last], acts + [CheckStamp(i)];
    forall n | 0 <= n < |acts'|
      ensures StepAt(Wrap32, cfg, w, acts', n)
    {
      assert n < |acts| ==> StepAt(Wrap32, cfg, v, acts, n);
    }
    forall c: nat, m: nat, n: nat | StillTrying(w, acts', c, m, n)
      ensures |w[n].own| < |w[m].own| + U32
    {
      assert acts'[m] == LoadTail(c);
      forall x | m < x <= n && x <= |acts|
        ensures Trying(v[x], c)
      {
        assert Trying(w[x], c);
      }
      assert StillTrying(v, acts, c, m, Min(n, |acts|));
    }
  }

  /**
   * A ring of more than 65536 slots, with nothing but punctual senders, some of which die, comes to accept a slot
   * that nobody published: at sequence number 2^32 - 1 the stamp 0 of a slot never stamped passes for the right one.
   */
  lemma LargeRingIsMistaken(slotCount: nat) returns (w: seq<State>, acts: seq<Action>)
    requires PowerOfTwo(slotCount) && slotCount > 0x1_0000
    ensures CopiesUnpublished(Lane(slotCount), w, acts) && Prompt(w, acts) && !NeverMistaken(Lane(slotCount), acts)
  {
    hide Inv, Next, Init, Wrap, Unmistaken, Punctual, Published, Trying, Tells;
    var cfg := Lane(slotCount);
    var s := LargeRingMeetsZero(slotCount);
    var tr, before :| TameRun(cfg, tr, before) && tr[|before|] == s;
    RunWraps(cfg, tr, before);
    var v := seq(|tr|, n requires 0 <= n < |tr| => Wrap(tr[n]));
    PunctualIsPrompt(cfg, tr, before);
    PromptWraps(v, tr, before);
    var last := MistakenLook(cfg, s);
    w, acts := v + [last], before + [CheckStamp(0)];
    OneMoreLook(cfg, v, before, 0, last);
    assert acts[..|before|] == before;
    assert Run(Unbounded, cfg, tr, acts[..|before|]);
  }

  /**
   * Whether uint32 counters and stamps are enough depends on the number of slots alone, and can be seen when a ring
   * is created: with senders in time no run of any ring of this many slots ever mistakes a value, whoever dies,
   * exactly if there are at most 65536.
   */
  lemma CountersSufficeExactlyTo65536(slotCount: nat)
    requires PowerOfTwo(slotCount)
    ensures slotCount <= 0x1_0000 <==>
            forall cfg: Config, w: seq<State>, acts: seq<Action> ::
              cfg.Valid() && cfg.slotCount == slotCount && Run(Wrap32, cfg, w, acts) && Prompt(w, acts) ==>
                NeverMistaken(cfg, acts)
  {
    hide Run, Prompt, NeverMistaken, CopiesUnpublished;
    if slotCount <= 0x1_0000 {
      forall cfg: Config, w: seq<State>, acts: seq<Action> |
        cfg.Valid() && cfg.slotCount == slotCount && Run(Wrap32, cfg, w, acts) && Prompt(w, acts)
        ensures NeverMistaken(cfg, acts)
      {
        PromptIsNeverMistaken(cfg, w, acts);
      }
    } else {
      var w, acts := LargeRingIsMistaken(slotCount);
      LaneNeeds(slotCount);
      CopyingRuns(Lane(slotCount), w, acts);
    }
  }
}
