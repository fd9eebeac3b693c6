/**
 * How send calls end: when one is refused, what a failed exchange means, and that none of them ever waits for
 * another.
 */
module RingSends {
  import opened Bytes
  import opened Slicing
  import opened Options
  import opened Ring
  import opened RingInv
  import opened RingSteps
  import opened RingStamps

  /** Call `c` has loaded the tail and not yet tried to exchange it. */
  ghost predicate Trying(s: State, c: nat) {
    c < |s.senders| && (s.senders[c].pc.Scan? || s.senders[c].pc.Cas?)
  }

  /** The tail that call `c` works with in state `n` is the one it loaded in step `m`. */
  ghost predicate StillTrying(tr: seq<State>, acts: seq<Action>, c: nat, m: nat, n: nat) {
    && m < n < |tr| && m < |acts| && acts[m] == LoadTail(c)
    && forall k :: m < k <= n ==> Trying(tr[k], c)
  }

  ghost function Loaded(s: State, c: nat): nat
    requires Trying(s, c)
  {
    match s.senders[c].pc
    case Scan(t, _, _, _) => t
    case Cas(t) => t
  }

  /** What a step makes of the call that takes it. */
  lemma OwnStep(cfg: Config, s: State, a: Action, c: nat)
    requires s.Shaped(cfg) && c < |s.senders|
    ensures var r := Next(Unbounded, cfg, s, a);
            r.Some? ==>
              && c < |r.value.senders|
              && (r.value.senders[c].pc.Scan? ==>
                    if a == LoadTail(c) then s.senders[c].pc == Start && r.value.senders[c].pc.oldTail == s.tail
                    else s.senders[c].pc.Scan? && r.value.senders[c].pc.oldTail == s.senders[c].pc.oldTail)
              && (r.value.senders[c].pc.Cas? ==>
                    && a != LoadTail(c)
                    && (s.senders[c].pc.Scan? || s.senders[c].pc.Cas?)
                    && r.value.senders[c].pc.oldTail == s.senders[c].pc.oldTail)
  {
    hide Absorb, ScanLength, OwnerDead, Overwrite, Piece, Finish, Sub, Add, Copied, Stalled;
  }

  lemma NewCall(cfg: Config, s: State, a: Action)
    requires s.Shaped(cfg)
    ensures var r := Next(Unbounded, cfg, s, a);
            r.Some? ==> |s.senders| <= |r.value.senders| <= |s.senders| + 1
                        && (|r.value.senders| > |s.senders| ==> r.value.senders[|s.senders|].pc == Start)
  {
    hide Absorb, ScanLength, OwnerDead, Overwrite, Piece, Finish, Sub, Add, Copied, Stalled;
  }

  lemma TryingStep(cfg: Config, s: State, a: Action, c: nat)
    requires s.Shaped(cfg)
    ensures var r := Next(Unbounded, cfg, s, a);
            r.Some? && Trying(r.value, c) ==>
              (if Trying(s, c) then a != LoadTail(c) && Loaded(r.value, c) == Loaded(s, c)
               else a == LoadTail(c) && Loaded(r.value, c) == s.tail)
  {
    hide Next;
    if c < |s.senders| {
      OwnStep(cfg, s, a, c);
    } else {
      NewCall(cfg, s, a);
    }
  }

  lemma NobodyTries(cfg: Config, c: nat)
    ensures !Trying(Init(cfg), c)
  {
  }

  lemma {:induction false} LoadedBefore(cfg: Config, tr: seq<State>, acts: seq<Action>, n: nat, c: nat) returns (m: nat)
    requires Run(Unbounded, cfg, tr, acts) && cfg.Valid() && n < |tr| && Trying(tr[n], c)
    ensures StillTrying(tr, acts, c, m, n) && |tr[m].own| == Loaded(tr[n], c)
  {
    hide Inv, Next, Trying, Loaded;
    NobodyTries(cfg, c);
    assert StepAt(Unbounded, cfg, tr, acts, n - 1);
    TryingStep(cfg, tr[n - 1], acts[n - 1], c);
    if Trying(tr[n - 1], c) {
      m := LoadedBefore(cfg, tr, acts, n - 1, c);
    } else {
      m := n - 1;
      RunKeeps(cfg, tr, acts, m);
      TailOf(cfg, tr[m]);
    }
  }

  lemma {:induction false} LoadedSince(cfg: Config, tr: seq<State>, acts: seq<Action>, c: nat, m: nat, n: nat)
    requires Run(Unbounded, cfg, tr, acts) && cfg.Valid() && StillTrying(tr, acts, c, m, n)
    ensures Trying(tr[n], c) && |tr[m].own| == Loaded(tr[n], c)
    decreases n
  {
    hide Inv, Next, Trying, Loaded;
    assert StepAt(Unbounded, cfg, tr, acts, n - 1);
    assert Trying(tr[n], c);
    TryingStep(cfg, tr[n - 1], acts[n - 1], c);
    if m + 1 < n {
      LoadedSince(cfg, tr, acts, c, m, n - 1);
    } else {
      RunKeeps(cfg, tr, acts, m);
      TailOf(cfg, tr[m]);
    }
  }

  // ----- how a call ends -----

  ghost predicate NoRoom(cfg: Config, need: nat, used: nat) {
    used + need > cfg.slotCount - 1
  }

  /** How a step may bring a call to one of the ends, or back to the start. */
  lemma HowCallsEnd(cfg: Config, s: State, a: Action, c: nat)
    requires s.Shaped(cfg) && c < |s.senders| && Next(Unbounded, cfg, s, a).Some?
    ensures var s', pc := Next(Unbounded, cfg, s, a).value, s.senders[c].pc;
            && c < |s'.senders| && s'.senders[c].msg == s.senders[c].msg
            && (s'.senders[c].pc != pc ==>
                  match s'.senders[c].pc
                  case Refused =>
                    || (a == LoadTail(c) && pc == Start && (cfg.Need(s.senders[c].msg) > 255 || cfg.readers == {}))
                    || (a == Decide(c) && pc.Scan? && pc.i == 8
                        && NoRoom(cfg, cfg.Need(s.senders[c].msg), Sub(Unbounded, pc.oldTail, pc.slow)))
                  case Dead => a == Kill(c)
                  case Returned(m) => a == PostSem(c) && pc == Post(m, 8)
                  case Start => a.TryCas? && a.c == c && pc.Cas? && (a.spurious || s.tail != pc.oldTail)
                  case _ => true)
  {
    hide Absorb, ScanLength, OwnerDead, Overwrite, Piece, Finish, Sub, Add, Copied, Stalled;
    if a.Decide? && a.c == c {
      NeedBounds(cfg.slotSize, |s.senders[c].msg.data|);
    }
  }

  // ----- one attempt -----

  /** In step `m` call `c` loaded the tail, and in state `n` it is still looking at the readers' heads. */
  ghost predicate Attempt(tr: seq<State>, acts: seq<Action>, c: nat, m: nat, n: nat) {
    && m < n < |tr| && m < |acts| && acts[m] == LoadTail(c)
    && forall k :: m < k <= n ==> c < |tr[k].senders| && tr[k].senders[c].pc.Scan?
  }

  /** Since step `m`, and before step `n`, call `c` loaded the head `h` of reader `r` in step `j`. */
  ghost predicate HeadLoaded(tr: seq<State>, acts: seq<Action>, c: nat, m: nat, n: nat, r: nat, h: nat, j: nat) {
    && m < j < n < |tr| && j < |acts| && acts[j] == LoadHead(c)
    && c < |tr[j].senders| && tr[j].senders[c].pc.Scan? && tr[j].senders[c].pc.i == r
    && r < |tr[j].heads| && tr[j].heads[r] == h
  }

  ghost predicate Seen(tr: seq<State>, acts: seq<Action>, c: nat, m: nat, n: nat, r: nat, h: nat) {
    exists j: nat :: HeadLoaded(tr, acts, c, m, n, r, h, j)
  }

  /** What the locals of the loop in slowest_head stand for. */
  ghost predicate Surveyed(cfg: Config, tr: seq<State>, acts: seq<Action>, c: nat, m: nat, n: nat)
    requires Attempt(tr, acts, c, m, n)
  {
    var pc, t := tr[n].senders[c].pc, tr[m].tail;
    && pc.oldTail == t && pc.i <= MAX_READER_COUNT && pc.maxUsed == Sub(Unbounded, t, pc.slow)
    && (forall r: nat, h: nat :: Seen(tr, acts, c, m, n, r, h) ==> r < pc.i)
    && (forall r: nat, h: nat :: r in cfg.readers && Seen(tr, acts, c, m, n, r, h) ==>
          Sub(Unbounded, t, h) <= pc.maxUsed)
    && (forall r: nat :: r in cfg.readers && r < pc.i ==> exists h: nat :: Seen(tr, acts, c, m, n, r, h))
    && (pc.maxUsed == 0 || exists r: nat :: r in cfg.readers && Seen(tr, acts, c, m, n, r, pc.slow))
  }

  /** Another step sees what was seen before it, and perhaps one head more. */
  lemma SeenNext(tr: seq<State>, acts: seq<Action>, c: nat, m: nat, n: nat, r: nat, h: nat)
    requires m < n && n + 1 < |tr|
    ensures Seen(tr, acts, c, m, n + 1, r, h) <==>
            Seen(tr, acts, c, m, n, r, h) || HeadLoaded(tr, acts, c, m, n + 1, r, h, n)
  {
    if Seen(tr, acts, c, m, n + 1, r, h) {
      var j: nat :| HeadLoaded(tr, acts, c, m, n + 1, r, h, j);
      assert j < n ==> HeadLoaded(tr, acts, c, m, n, r, h, j);
    }
    if Seen(tr, acts, c, m, n, r, h) {
      var j: nat :| HeadLoaded(tr, acts, c, m, n, r, h, j);
      assert HeadLoaded(tr, acts, c, m, n + 1, r, h, j);
    }
  }

  /** A call that scans goes on with its own loads only. */
  lemma ScanSteps(cfg: Config, s: State, a: Action, c: nat)
    requires s.Shaped(cfg) && c < |s.senders| && s.senders[c].pc.Scan?
    requires Next(Unbounded, cfg, s, a).Some?
    ensures var s', pc := Next(Unbounded, cfg, s, a).value, s.senders[c].pc;
            && c < |s'.senders|
            && (s'.senders[c].pc.Scan? ==>
                  if a != LoadHead(c) then s'.senders[c].pc == pc
                  else
                    var used := Sub(Unbounded, pc.oldTail, s.heads[pc.i]);
                    && pc.i < MAX_READER_COUNT
                    && s'.senders[c].pc == if pc.i in cfg.readers && used > pc.maxUsed
                                           then Scan(pc.oldTail, pc.i + 1, s.heads[pc.i], used)
                                           else Scan(pc.oldTail, pc.i + 1, pc.slow, pc.maxUsed))
  {
    hide Absorb, ScanLength, OwnerDead, Overwrite, Piece, Finish, Sub, Add, Copied, Stalled;
    assert s.SenderShaped(cfg, s.senders[c]);
  }

  lemma NothingSeen(tr: seq<State>, acts: seq<Action>, c: nat, m: nat, r: nat, h: nat)
    ensures !Seen(tr, acts, c, m, m + 1, r, h)
  {
  }

  lemma SurveyStarts(cfg: Config, tr: seq<State>, acts: seq<Action>, c: nat, m: nat)
    requires Attempt(tr, acts, c, m, m + 1) && tr[m].Shaped(cfg)
    requires Next(Unbounded, cfg, tr[m], acts[m]) == Some(tr[m + 1])
    ensures Surveyed(cfg, tr, acts, c, m, m + 1)
  {
    hide Seen;
    var n := m + 1;
    forall r: nat, h: nat
      ensures !Seen(tr, acts, c, m, n, r, h)
    {
      NothingSeen(tr, acts, c, m, r, h);
    }
  }

  lemma LoadedNow(tr: seq<State>, acts: seq<Action>, c: nat, m: nat, n: nat, r: nat, h: nat)
    requires Attempt(tr, acts, c, m, n) && n + 1 < |tr| && n < |acts|
    requires tr[n].senders[c].pc.i < |tr[n].heads| || acts[n] != LoadHead(c)
    ensures HeadLoaded(tr, acts, c, m, n + 1, r, h, n) <==>
            acts[n] == LoadHead(c) && r == tr[n].senders[c].pc.i && h == tr[n].heads[r]
  {
  }

  lemma SurveyGoesOn(cfg: Config, tr: seq<State>, acts: seq<Action>, c: nat, m: nat, n: nat)
    requires Attempt(tr, acts, c, m, n) && Attempt(tr, acts, c, m, n + 1) && n < |acts|
    requires tr[n].Shaped(cfg) && Next(Unbounded, cfg, tr[n], acts[n]) == Some(tr[n + 1])
    requires Surveyed(cfg, tr, acts, c, m, n)
    ensures Surveyed(cfg, tr, acts, c, m, n + 1)
  {
    hide Next, Sub, Seen, HeadLoaded;
    ScanSteps(cfg, tr[n], acts[n], c);
    var pc, n' := tr[n].senders[c].pc, n + 1;
    forall r: nat, h: nat
      ensures Seen(tr, acts, c, m, n', r, h) <==>
              Seen(tr, acts, c, m, n, r, h) || (acts[n] == LoadHead(c) && r == pc.i && h == tr[n].heads[r])
    {
      SeenNext(tr, acts, c, m, n, r, h);
      LoadedNow(tr, acts, c, m, n, r, h);
    }
    assert acts[n] == LoadHead(c) ==> Seen(tr, acts, c, m, n', pc.i, tr[n].heads[pc.i]);
  }

  lemma {:induction false} AttemptSurveys(cfg: Config, tr: seq<State>, acts: seq<Action>, c: nat, m: nat, n: nat)
    requires Run(Unbounded, cfg, tr, acts) && Attempt(tr, acts, c, m, n)
    ensures Surveyed(cfg, tr, acts, c, m, n)
    decreases n
  {
    hide Next, Init, Surveyed;
    if n == m + 1 {
      assert StepAt(Unbounded, cfg, tr, acts, m);
      SurveyStarts(cfg, tr, acts, c, m);
    } else {
      AttemptSurveys(cfg, tr, acts, c, m, n - 1);
      assert StepAt(Unbounded, cfg, tr, acts, n - 1);
      SurveyGoesOn(cfg, tr, acts, c, m, n - 1);
    }
  }

  /** A head that the call loaded stands in its way: the uint32 backlog leaves no room for the message. */
  ghost predicate Blocked(cfg: Config, tr: seq<State>, acts: seq<Action>, c: nat, m: nat, n: nat, need: nat) {
    exists r: nat, h: nat ::
      r in cfg.readers && Seen(tr, acts, c, m, n, r, h) && NoRoom(cfg, need, Sub(Unbounded, tr[m].tail, h))
  }

  lemma ScanHasReaders(cfg: Config, s: State, c: nat)
    requires Inv(cfg, s) && c < |s.senders| && s.senders[c].pc.Scan?
    ensures cfg.readers != {}
  {
    hide LogInv, MemInv, HeadsInv, BackLink, ReaderOk, TokensInv;
    assert SenderOk(cfg, s.log, s.own, s.slots, s.heads, c, s.senders[c]);
  }

  /**
   * The decision of an attempt is right for the heads it loaded: with every active reader looked at since the tail was
   * loaded, the call is refused if one of them left no room, and goes on to its exchange if none did.
   */
  lemma DecisionIsExact(cfg: Config, tr: seq<State>, acts: seq<Action>, c: nat, m: nat, n: nat)
    requires Run(Unbounded, cfg, tr, acts) && cfg.Valid() && Attempt(tr, acts, c, m, n)
    requires n < |acts| && acts[n] == Decide(c)
    ensures c < |tr[n + 1].senders|
    ensures var need := cfg.Need(tr[n].senders[c].msg);
            tr[n + 1].senders[c].pc == if Blocked(cfg, tr, acts, c, m, n, need) then Refused else Cas(tr[m].tail)
    ensures forall r: nat :: r in cfg.readers ==> exists h: nat :: Seen(tr, acts, c, m, n, r, h)
  {
    hide Seen, Inv, Init;
    AttemptSurveys(cfg, tr, acts, c, m, n);
    assert StepAt(Unbounded, cfg, tr, acts, n);
    var s := tr[n];
    NeedBounds(cfg.slotSize, |s.senders[c].msg.data|);
    var pc, need := s.senders[c].pc, cfg.Need(s.senders[c].msg);
    assert pc.i == MAX_READER_COUNT;
    if pc.maxUsed == 0 {
      RunKeeps(cfg, tr, acts, n);
      ScanHasReaders(cfg, s, c);
      var r :| r in cfg.readers;
      var h :| Seen(tr, acts, c, m, n, r, h);
      assert Sub(Unbounded, tr[m].tail, h) == 0;
    }
  }

  /**
   * What it means that a loaded head left no room: the true backlog was too large, or the reader was already past the
   * tail that the call had loaded.
   */
  lemma NoRoomMeans(cfg: Config, t: nat, h: nat, need: nat)
    requires cfg.slotCount > 0 && need > 0 && h + cfg.slotCount <= t + U32
    ensures NoRoom(cfg, need, Sub(Unbounded, t, h)) <==> h > t || t + need > h + cfg.slotCount - 1
  {
    if h > t {
      assert (t - h) % U32 == t - h + U32;
    }
  }

  lemma {:induction false} AttemptBegan(cfg: Config, tr: seq<State>, acts: seq<Action>, c: nat, n: nat) returns (m: nat)
    requires Run(Unbounded, cfg, tr, acts) && n < |tr| && c < |tr[n].senders| && tr[n].senders[c].pc.Scan?
    ensures Attempt(tr, acts, c, m, n)
  {
    hide Next;
    assert StepAt(Unbounded, cfg, tr, acts, n - 1) by {
      assert n > 0;
    }
    TryingStep(cfg, tr[n - 1], acts[n - 1], c);
    if Trying(tr[n - 1], c) {
      OwnStep(cfg, tr[n - 1], acts[n - 1], c);
      m := AttemptBegan(cfg, tr, acts, c, n - 1);
    } else {
      m := n - 1;
    }
  }

  /**
   * A call is refused, over every run, only if it needs more than 255 slots, or finds no reader, or has an attempt
   * behind it in which a head it loaded left no room. A failed exchange refuses nobody.
   */
  lemma RefusedOnlyForRoom(cfg: Config, tr: seq<State>, acts: seq<Action>, c: nat, n: nat)
    requires Run(Unbounded, cfg, tr, acts) && cfg.Valid() && n < |acts| && c < |tr[n].senders|
    requires c < |tr[n + 1].senders| && tr[n].senders[c].pc != Refused && tr[n + 1].senders[c].pc == Refused
    ensures var need := cfg.Need(tr[n].senders[c].msg);
            || need > 255 || cfg.readers == {}
            || exists m: nat :: Attempt(tr, acts, c, m, n) && Blocked(cfg, tr, acts, c, m, n, need)
  {
    hide Inv, Next, Init, Attempt, Blocked;
    assert StepAt(Unbounded, cfg, tr, acts, n);
    HowCallsEnd(cfg, tr[n], acts[n], c);
    if acts[n] == Decide(c) {
      var m := AttemptBegan(cfg, tr, acts, c, n);
      DecisionIsExact(cfg, tr, acts, c, m, n);
    }
  }

  // ----- failed exchanges -----

  /** An exchange either reserves the message's slots at the loaded tail, or sends the call back to its start. */
  lemma ExchangeIsExact(cfg: Config, s: State, c: nat, spurious: bool)
    requires s.Shaped(cfg) && c < |s.senders| && s.senders[c].pc.Cas?
    ensures var r, t := Next(Unbounded, cfg, s, TryCas(c, spurious)), s.senders[c].pc.oldTail;
            && r.Some? && c < |r.value.senders|
            && (if !spurious && s.tail == t
                then r.value.senders[c].pc == Fill(|s.log|, t, 0, 0) && r.value.tail == t + cfg.Need(s.senders[c].msg)
                else r.value == SetPc(s, c, Start))
  {
  }

  lemma ReservedInBetween(cfg: Config, s: State, a: Action)
    requires Inv(cfg, s)
    ensures var r := Next(Unbounded, cfg, s, a);
            r.Some? ==> |r.value.own| >= |s.own| && |r.value.log| >= |s.log|
                        && (|r.value.own| > |s.own| ==> |r.value.log| > |s.log|)
  {
    hide LogInv, MemInv, HeadsInv, SenderOk, BackLink, ReaderOk, TokensInv, Absorb, Overwrite, Piece, ScanLength,
         Finish;
  }

  lemma {:induction false} RunReserves(cfg: Config, tr: seq<State>, acts: seq<Action>, m: nat, n: nat)
    requires Run(Unbounded, cfg, tr, acts) && cfg.Valid() && m <= n < |tr|
    ensures |tr[n].own| >= |tr[m].own| && |tr[n].log| >= |tr[m].log|
    ensures |tr[n].own| > |tr[m].own| ==> |tr[n].log| > |tr[m].log|
    decreases n
  {
    hide Inv, Next, Init;
    if m < n {
      RunReserves(cfg, tr, acts, m, n - 1);
      RunKeeps(cfg, tr, acts, n - 1);
      assert StepAt(Unbounded, cfg, tr, acts, n - 1);
      ReservedInBetween(cfg, tr[n - 1], acts[n - 1]);
    }
  }

  lemma LoadedInRange(tr: seq<State>, acts: seq<Action>, c: nat, m: nat, n: nat)
    requires StillTrying(tr, acts, c, m, n)
    ensures m < n < |tr|
  {
  }

  /** If an exchange fails for a reason, another call reserved its slots since the tail was loaded: somebody gets on. */
  lemma FailureMeansProgress(cfg: Config, tr: seq<State>, acts: seq<Action>, c: nat, n: nat)
    requires Run(Unbounded, cfg, tr, acts) && cfg.Valid() && n < |acts| && acts[n] == TryCas(c, false)
    requires c < |tr[n].senders| && tr[n].senders[c].pc.Cas? && c < |tr[n + 1].senders|
    requires tr[n + 1].senders[c].pc == Start
    ensures exists m: nat :: StillTrying(tr, acts, c, m, n) && |tr[n].log| > |tr[m].log|
  {
    hide Inv, Next, Init, StillTrying;
    assert StepAt(Unbounded, cfg, tr, acts, n);
    ExchangeIsExact(cfg, tr[n], c, false);
    assert tr[n].tail != tr[n].senders[c].pc.oldTail;
    var m := LoadedBefore(cfg, tr, acts, n, c);
    RunKeeps(cfg, tr, acts, n);
    TailOf(cfg, tr[n]);
    LoadedInRange(tr, acts, c, m, n);
    RunReserves(cfg, tr, acts, m, n);
  }

  // ----- nobody waits -----

  ghost predicate Ended(pc: SenderPc) {
    pc.Refused? || pc.Returned? || pc.Dead?
  }

  /** The next shared access of a call. */
  ghost function OwnAction(c: nat, pc: SenderPc): Action {
    match pc
    case Scan(_, i, _, _) => if i < MAX_READER_COUNT then LoadHead(c) else Decide(c)
    case Cas(_) => TryCas(c, false)
    case Fill(_, _, _, _) => FillSlot(c)
    case Stamp(_, _, _, _) => StampSlot(c)
    case Post(_, _) => PostSem(c)
    case _ => LoadTail(c)
  }

  /** A call that has not ended can always take its next step, whatever the others do or fail to do. */
  lemma CallsNeverWait(cfg: Config, s: State, c: nat)
    requires Inv(cfg, s) && c < |s.senders| && !Ended(s.senders[c].pc)
    ensures Next(Unbounded, cfg, s, OwnAction(c, s.senders[c].pc)).Some?
  {
    hide LogInv, MemInv, HeadsInv, SenderOk, BackLink, ReaderOk, TokensInv, Absorb, Overwrite, Piece, ScanLength;
    assert s.SenderShaped(cfg, s.senders[c]);
    if s.senders[c].pc.Fill? {
      FillCarries(cfg, s, c);
    }
  }

  /** A reader waits for nothing but a token. */
  lemma ReadersWaitOnlyForTokens(cfg: Config, s: State, i: nat)
    requires Inv(cfg, s) && i in cfg.readers
    ensures var own := match s.readers[i].pc
                       case Idle => Wait(i)
                       case Loop => Look(i)
                       case Check(_) => CheckStamp(i)
                       case Copy => CopySlot(i)
                       case Publish(_) => PublishHead(i);
            Next(Unbounded, cfg, s, own).None? <==> s.readers[i].pc == Idle && s.tokens[i] == 0
  {
    hide LogInv, MemInv, HeadsInv, SenderOk, BackLink, ReaderOk, TokensInv, Absorb;
  }
}
