/** How posts end: when one is refused, what a failed exchange means, and who ever waits. */
module EventQueuePosts {
  import opened Options
  import opened EventQueue
  import opened EventQueueTheorems

  lemma OthersLeavePost<T>(s: State<T>, a: Action<T>, c: nat)
    requires |s.cells| > 0 && c < |s.producers| && Next(s, a).Some? && !(a.Produce? && a.c == c)
    ensures var s' := Next(s, a).value; c < |s'.producers| && s'.producers[c] == s.producers[c]
  {
    hide Full;
  }

  /** How a step may end a post, or set its tail. */
  ghost predicate EndsWell<T>(s: State<T>, c: nat, spurious: bool, pc': ProducerPc)
    requires c < |s.producers| && |s.cells| > 0
  {
    var pc := s.producers[c].pc;
    match pc'
    case Refused => pc.LoadHead? && Full(pc.t, s.head, |s.cells|)
    case LoadHead(t) => t == s.tail && (pc == Start || (pc.Cas? && (spurious || s.tail != pc.t)))
    case Cas(t) => pc == LoadHead(t)
    case WaitSlot(p) => pc == Cas(p) && s.tail == p
    case Returned(p) => pc == Wake(p)
    case _ => true
  }

  lemma OwnPost<T>(s: State<T>, c: nat, spurious: bool)
    requires |s.cells| > 0 && c < |s.producers|
    ensures var r := ProduceStep(s, c, spurious);
            r.Some? ==>
              && c < |r.value.producers| && r.value.producers[c].item == s.producers[c].item
              && EndsWell(s, c, spurious, r.value.producers[c].pc)
  {
    hide Full;
  }

  lemma HowPostsEnd<T>(s: State<T>, a: Action<T>, c: nat)
    requires |s.cells| > 0 && c < |s.producers| && Next(s, a).Some?
    ensures var s' := Next(s, a).value;
            && c < |s'.producers| && s'.producers[c].item == s.producers[c].item
            && (s'.producers[c].pc != s.producers[c].pc ==>
                  a.Produce? && a.c == c && EndsWell(s, c, a.spurious, s'.producers[c].pc))
  {
    hide ProduceStep, EndsWell, WorkStep;
    if a.Produce? && a.c == c {
      OwnPost(s, c, a.spurious);
    } else {
      OthersLeavePost(s, a, c);
    }
  }

  /** In step `m` the post of `c` loaded the tail, and in state `n` it is about to look at the head. */
  ghost predicate TailLoaded<T>(tr: seq<State<T>>, acts: seq<Action<T>>, c: nat, m: nat, n: nat) {
    && m < n < |tr| && m < |acts| && acts[m].Produce? && acts[m].c == c
    && forall k :: m < k <= n ==> c < |tr[k].producers| && tr[k].producers[c].pc == LoadHead(tr[m].tail)
  }

  lemma NewPost<T>(s: State<T>, a: Action<T>)
    requires |s.cells| > 0 && Next(s, a).Some?
    ensures var s' := Next(s, a).value;
            && |s.producers| <= |s'.producers| <= |s.producers| + 1
            && (|s'.producers| > |s.producers| ==> s'.producers[|s.producers|].pc == Start)
  {
  }

  lemma {:induction false} LoadBegan<T>(cap: nat, tr: seq<State<T>>, acts: seq<Action<T>>, c: nat,
                                        n: nat) returns (m: nat)
    requires Run(cap, tr, acts) && n < |tr| && c < |tr[n].producers| && tr[n].producers[c].pc.LoadHead?
    ensures TailLoaded(tr, acts, c, m, n)
  {
    hide Next;
    assert n > 0 && StepAt(tr, acts, n - 1);
    NewPost(tr[n - 1], acts[n - 1]);
    assert c < |tr[n - 1].producers|;
    HowPostsEnd(tr[n - 1], acts[n - 1], c);
    if tr[n - 1].producers[c].pc == tr[n].producers[c].pc {
      m := LoadBegan(cap, tr, acts, c, n - 1);
    } else {
      m := n - 1;
    }
  }

  /**
   * Over every run a post is refused only when the queue is full at that moment, or the worker has overtaken the tail
   * that the post had loaded. A failed exchange refuses nobody.
   */
  lemma RefusedOnlyIfFull<T>(cap: nat, tr: seq<State<T>>, acts: seq<Action<T>>, c: nat, n: nat)
    requires Run(cap, tr, acts) && 0 < cap < SIZE_MAX_PLUS_1 && n < |acts| && c < |tr[n].producers|
    requires c < |tr[n + 1].producers| && tr[n].producers[c].pc != Refused && tr[n + 1].producers[c].pc == Refused
    ensures exists m: nat :: TailLoaded(tr, acts, c, m, n)
                          && (tr[n].tail == tr[n].head + cap || tr[n].head > tr[m].tail)
  {
    hide Next;
    RunKeeps(cap, tr, acts, n);
    assert StepAt(tr, acts, n);
    HowPostsEnd(tr[n], acts[n], c);
    var m := LoadBegan(cap, tr, acts, c, n);
    var t := tr[n].producers[c].pc.t;
    assert ProducerOk(tr[n], c);
    if tr[n].head <= t {
      assert (t - tr[n].head) % SIZE_MAX_PLUS_1 <= t - tr[n].head;
    }
  }

  lemma Appends<T>(s: State<T>, a: Action<T>)
    requires Inv(s)
    ensures var r := Next(s, a); r.Some? ==> |r.value.log| >= |s.log|
  {
    hide CellOk, ProducerOk, WorkerOk, BackLink, Awake;
  }

  lemma {:induction false} LogGrows<T>(cap: nat, tr: seq<State<T>>, acts: seq<Action<T>>, m: nat, n: nat)
    requires Run(cap, tr, acts) && 0 < cap < SIZE_MAX_PLUS_1 && m <= n < |tr|
    ensures |tr[n].log| >= |tr[m].log|
    decreases n
  {
    hide Inv, Next;
    if m < n {
      LogGrows(cap, tr, acts, m, n - 1);
      RunKeeps(cap, tr, acts, n - 1);
      assert StepAt(tr, acts, n - 1);
      Appends(tr[n - 1], acts[n - 1]);
    }
  }

  /** The post of `c` works with the tail it loaded in step `m`. */
  ghost predicate WithTail<T>(tr: seq<State<T>>, acts: seq<Action<T>>, c: nat, m: nat, n: nat) {
    && m < n < |tr| && m < |acts| && acts[m].Produce? && acts[m].c == c
    && forall k :: m < k <= n ==>
                     c < |tr[k].producers|
                     && (tr[k].producers[c].pc == LoadHead(tr[m].tail) || tr[k].producers[c].pc == Cas(tr[m].tail))
  }

  lemma {:induction false} CasBegan<T>(cap: nat, tr: seq<State<T>>, acts: seq<Action<T>>, c: nat,
                                       n: nat) returns (m: nat)
    requires Run(cap, tr, acts) && n < |tr| && c < |tr[n].producers| && tr[n].producers[c].pc.Cas?
    ensures WithTail(tr, acts, c, m, n)
  {
    hide Next;
    assert n > 0 && StepAt(tr, acts, n - 1);
    NewPost(tr[n - 1], acts[n - 1]);
    assert c < |tr[n - 1].producers|;
    HowPostsEnd(tr[n - 1], acts[n - 1], c);
    if tr[n - 1].producers[c].pc == tr[n].producers[c].pc {
      m := CasBegan(cap, tr, acts, c, n - 1);
    } else {
      m := LoadBegan(cap, tr, acts, c, n - 1);
    }
  }

  /** If the exchange of a post fails for a reason, another post took a position since the tail was loaded. */
  lemma FailureMeansProgress<T>(cap: nat, tr: seq<State<T>>, acts: seq<Action<T>>, c: nat, n: nat)
    requires Run(cap, tr, acts) && 0 < cap < SIZE_MAX_PLUS_1 && n < |acts| && acts[n] == Produce(c, false)
    requires c < |tr[n].producers| && tr[n].producers[c].pc.Cas?
    requires c < |tr[n + 1].producers| && !tr[n + 1].producers[c].pc.WaitSlot?
    ensures exists m: nat :: WithTail(tr, acts, c, m, n) && |tr[n].log| > |tr[m].log|
    ensures tr[n + 1].producers[c].pc == LoadHead(tr[n].tail)
  {
    assert StepAt(tr, acts, n);
    var m := CasBegan(cap, tr, acts, c, n);
    RunKeeps(cap, tr, acts, m);
    RunKeeps(cap, tr, acts, n);
    LogGrows(cap, tr, acts, m, n);
  }

  /** Apart from the wait for its slot a post never waits, and the worker waits only where it sleeps. */
  lemma WhoWaits<T>(s: State<T>)
    requires Inv(s)
    ensures forall c, spurious :: 0 <= c < |s.producers| ==>
              (ProduceStep(s, c, spurious).None? <==>
               || s.producers[c].pc.Returned? || s.producers[c].pc.Refused?
               || (s.producers[c].pc.WaitSlot? && s.cells[s.producers[c].pc.p % |s.cells|].committed))
    ensures forall spurious :: WorkStep(s, spurious).None? <==> s.worker == EpollWait && !s.ready
  {
    hide CellOk, BackLink, Awake, WorkerOk;
    forall c, spurious | 0 <= c < |s.producers|
      ensures ProduceStep(s, c, spurious).None? <==>
              || s.producers[c].pc.Returned? || s.producers[c].pc.Refused?
              || (s.producers[c].pc.WaitSlot? && s.cells[s.producers[c].pc.p % |s.cells|].committed)
    {
      assert ProducerOk(s, c);
    }
  }

  lemma SleepsIfDrained<T>(s: State<T>, spurious: bool)
    requires Inv(s) && s.worker.PopTail?
    ensures WorkStep(s, spurious).Some?
    ensures WorkStep(s, spurious).value.worker == EpollWait <==> s.ran == Items(s.log, |s.log|)
  {
    hide CellOk, ProducerOk, BackLink, Awake;
  }

  /** The worker goes back to sleep exactly when every task accepted so far has run. */
  lemma SleepsExactlyIfDrained<T>(cap: nat, tr: seq<State<T>>, acts: seq<Action<T>>, n: nat, spurious: bool)
    requires Run(cap, tr, acts) && 0 < cap < SIZE_MAX_PLUS_1 && n <= |acts| && tr[n].worker.PopTail?
    ensures WorkStep(tr[n], spurious).Some?
    ensures WorkStep(tr[n], spurious).value.worker == EpollWait <==> tr[n].ran == Reservations(tr, acts, n)
  {
    hide Inv, WorkStep;
    RunKeeps(cap, tr, acts, n);
    LogIsReservationOrder(cap, tr, acts, n);
    SleepsIfDrained(tr[n], spurious);
  }

  // ----- wakes and wakeups -----

  /** How often wake was called in the first `n` steps. */
  ghost function Wakes<T>(tr: seq<State<T>>, acts: seq<Action<T>>, n: nat): nat
    requires n <= |acts| && |tr| == |acts| + 1
  {
    if n == 0 then 0
    else
      Wakes(tr, acts, n - 1)
      + (match acts[n - 1]
         case ExtraWake => 1
         case Produce(c, _) => if c < |tr[n - 1].producers| && tr[n - 1].producers[c].pc.Wake? then 1 else 0
         case _ => 0)
  }

  /** How often the worker came back from epoll, and how often it went on to drain the queue. */
  ghost function Returns<T>(tr: seq<State<T>>, acts: seq<Action<T>>, n: nat): nat
    requires n <= |acts| && |tr| == |acts| + 1
  {
    if n == 0 then 0
    else Returns(tr, acts, n - 1) + (if acts[n - 1].Work? && tr[n - 1].worker == EpollWait then 1 else 0)
  }

  ghost function Drains<T>(tr: seq<State<T>>, acts: seq<Action<T>>, n: nat): nat
    requires n <= |acts| && |tr| == |acts| + 1
  {
    if n == 0 then 0
    else Drains(tr, acts, n - 1) + (if acts[n - 1].Work? && tr[n - 1].worker == ReadEvent then 1 else 0)
  }

  lemma ProducerInRange<T>(s: State<T>, a: Action<T>)
    requires |s.cells| > 0 && Next(s, a).Some? && a.Produce?
    ensures a.c < |s.producers|
  {
  }

  lemma WakeStep<T>(s: State<T>, a: Action<T>)
    requires |s.cells| > 0 && Next(s, a).Some? && (s.worker == ReadEvent ==> s.counter > 0)
    ensures var s' := Next(s, a).value;
            var woke := a.ExtraWake? || (a.Produce? && a.c < |s.producers| && s.producers[a.c].pc.Wake?);
            && (s'.worker == ReadEvent ==> s'.counter > 0)
            && s'.counter == (if a.Work? && s.worker == ReadEvent then 0 else s.counter + (if woke then 1 else 0))
            && (a.Work? && s.worker == EpollWait ==> s.ready && !s'.ready)
            && (s'.ready ==> s.ready || woke)
  {
    hide Full;
  }

  /** Every wake is used up: the worker returns from epoll, and drains the queue, at most once for each of them. */
  lemma {:induction false} EachWakeCountsOnce<T>(cap: nat, tr: seq<State<T>>, acts: seq<Action<T>>, n: nat)
    requires Run(cap, tr, acts) && n <= |acts|
    ensures Returns(tr, acts, n) + (if tr[n].ready then 1 else 0) <= Wakes(tr, acts, n)
    ensures Drains(tr, acts, n) + tr[n].counter <= Wakes(tr, acts, n)
    ensures tr[n].worker == ReadEvent ==> tr[n].counter > 0
  {
    hide Next;
    if n > 0 {
      EachWakeCountsOnce(cap, tr, acts, n - 1);
      assert StepAt(tr, acts, n - 1);
      if acts[n - 1].Produce? {
        ProducerInRange(tr[n - 1], acts[n - 1]);
      }
      WakeStep(tr[n - 1], acts[n - 1]);
    }
  }

  // ----- a refusal without need -----

  /** Some run of a queue of four nodes ends in `s`. */
  ghost predicate Reached(s: State<int>) {
    exists tr: seq<State<int>>, acts: seq<Action<int>> :: Run(4, tr, acts) && tr[|acts|] == s
  }

  /** Equality, field by field. */
  ghost predicate Same(a: State<int>, b: State<int>) {
    && a.head == b.head && a.tail == b.tail && a.cells == b.cells && a.counter == b.counter && a.ready == b.ready
    && a.producers == b.producers && a.worker == b.worker && a.log == b.log && a.ran == b.ran
  }

  lemma ReachStep(s: State<int>, a: Action<int>, s': State<int>)
    requires Reached(s) && |s.cells| == |s'.cells| == 4 && Next(s, a).Some?
    requires Same(Next(s, a).value, s')
    ensures Reached(s')
  {
    hide Next;
    var tr: seq<State<int>>, acts: seq<Action<int>> :| Run(4, tr, acts) && tr[|acts|] == s;
    var tr', acts' := tr + [s'], acts + [a];
    forall n | 0 <= n < |acts'|
      ensures StepAt(tr', acts', n)
    {
      assert n < |acts| ==> StepAt(tr, acts, n);
    }
    assert Run(4, tr', acts') && tr'[|acts'|] == s';
  }

  /** Post 0 has loaded tail 0; post 1 is at `pc`, on a queue with `tail`, first node `cell` and history `log`. */
  ghost function Stage(pc: ProducerPc, tail: nat, cell: Cell<int>, log: seq<Post<int>>): State<int> {
    var free := Cell(None, false);
    State(0, tail, [cell, free, free, free], 0, false, [Producer(10, LoadHead(0)), Producer(11, pc)], EpollWait, log, [])
  }

  lemma PostWrites()
    requires Reached(Stage(WaitSlot(0), 1, Cell(None, false), [Post(1, 11, false)]))
    ensures Reached(Stage(Returned(0), 1, Cell(Some(11), true), [Post(1, 11, true)]).(counter := 1, ready := true))
  {
    hide Reached;
    var free, full := Cell(None, false), Cell(Some(11), false);
    var a, b := Post(1, 11, false), Post(1, 11, true);
    var go := Produce(1, false);
    ReachStep(Stage(WaitSlot(0), 1, free, [a]), go, Stage(Write(0), 1, free, [a]));
    ReachStep(Stage(Write(0), 1, free, [a]), go, Stage(Commit(0), 1, full, [a]));
    ReachStep(Stage(Commit(0), 1, full, [a]), go, Stage(Wake(0), 1, Cell(Some(11), true), [b]));
    ReachStep(Stage(Wake(0), 1, Cell(Some(11), true), [b]), go,
              Stage(Returned(0), 1, Cell(Some(11), true), [b]).(counter := 1, ready := true));
  }

  lemma PostPasses()
    requires Reached(Stage(Start, 0, Cell(None, false), []))
    ensures Reached(Stage(Returned(0), 1, Cell(Some(11), true), [Post(1, 11, true)]).(counter := 1, ready := true))
  {
    hide Reached;
    var free, a := Cell(None, false), Post(1, 11, false);
    var go := Produce(1, false);
    ReachStep(Stage(Start, 0, free, []), go, Stage(LoadHead(0), 0, free, []));
    ReachStep(Stage(LoadHead(0), 0, free, []), go, Stage(Cas(0), 0, free, []));
    ReachStep(Stage(Cas(0), 0, free, []), go, Stage(WaitSlot(0), 1, free, [a]));
    PostWrites();
  }

  lemma TaskRuns() returns (s: State<int>)
    requires Reached(Stage(Returned(0), 1, Cell(Some(11), true), [Post(1, 11, true)]).(counter := 1, ready := true))
    ensures Reached(s) && |s.cells| == 4 && s.head == s.tail == 1 && s.worker == EpollWait && |s.producers| == 2
    ensures s.producers[0].pc == LoadHead(0)
  {
    hide Reached;
    var b := Post(1, 11, true);
    var s0 := Stage(Returned(0), 1, Cell(Some(11), true), [b]);
    var s1 := Stage(Returned(0), 1, Cell(None, true), [b]).(head := 1);
    var s2 := Stage(Returned(0), 1, Cell(None, false), [b]).(head := 1);
    var go := Work(false);
    ReachStep(s0.(counter := 1, ready := true), go, s0.(counter := 1, worker := ReadEvent));
    ReachStep(s0.(counter := 1, worker := ReadEvent), go, s0.(worker := PopHead));
    ReachStep(s0.(worker := PopHead), go, s0.(worker := PopTail(0)));
    ReachStep(s0.(worker := PopTail(0)), go, s0.(worker := CheckCommitted(0)));
    ReachStep(s0.(worker := CheckCommitted(0)), go, s0.(worker := PopCas(0)));
    ReachStep(s0.(worker := PopCas(0)), go, s0.(head := 1, worker := Move(0)));
    ReachStep(s0.(head := 1, worker := Move(0)), go, s1.(worker := Clear(0, Some(11))));
    ReachStep(s1.(worker := Clear(0, Some(11))), go, s2.(worker := RunTask(Some(11))));
    ReachStep(s2.(worker := RunTask(Some(11))), go, s2.(worker := PopHead, ran := [Some(11)]));
    ReachStep(s2.(worker := PopHead, ran := [Some(11)]), go, s2.(worker := PopTail(1), ran := [Some(11)]));
    s := s2.(worker := EpollWait, ran := [Some(11)]);
    ReachStep(s2.(worker := PopTail(1), ran := [Some(11)]), go, s);
  }

  lemma InitReached()
    ensures Reached(Init<int>(4))
  {
    var acts: seq<Action<int>> := [];
    assert Run(4, [Init<int>(4)], acts);
  }

  lemma FirstLoads()
    ensures Reached(Stage(Start, 0, Cell(None, false), []))
  {
    hide Reached;
    var s0 := Init<int>(4);
    InitReached();
    var s1 := s0.(producers := [Producer(10, Start)]);
    ReachStep(s0, Call(10), s1);
    ReachStep(s1, Produce(0, false), s0.(producers := [Producer(10, LoadHead(0))]));
    ReachStep(s0.(producers := [Producer(10, LoadHead(0))]), Call(11), Stage(Start, 0, Cell(None, false), []));
  }

  /** A post can be refused by an empty queue: its tail was loaded before another task went through. */
  lemma RefusedOnEmptyQueue() returns (s: State<int>)
    ensures Reached(s) && s.head == s.tail && |s.producers| > 0 && s.producers[0].pc == Refused
  {
    hide Reached;
    FirstLoads();
    PostPasses();
    var s1 := TaskRuns();
    s := SetPc(s1, 0, Refused);
    ReachStep(s1, Produce(0, false), s);
  }
}
