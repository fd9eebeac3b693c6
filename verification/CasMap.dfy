/**
 * The copy-on-write maps of ShmManager: threads copy the current snapshot, edit the copy and try to exchange the
 * pointer. Any number of threads, in any interleaving, with exchanges that may fail for no reason.
 */
module CasMap {
  import opened Options

  datatype Op<V> = Add(name: string, v: V) | Remove(name: string)

  /** What a call returns: the add was the first of its name, or the value the remove took out. */
  datatype Outcome<V> = Added(ok: bool) | Removed(was: Option<V>)

  datatype Pc<V> = Start | Holding(snapshot: nat) | Done(outcome: Outcome<V>)

  datatype Call<V> = Call(op: Op<V>, pc: Pc<V>)

  /** History: one call at the moment it took effect. */
  datatype Event<V> = Event(call: nat, op: Op<V>, outcome: Outcome<V>)

  /** `snapshots` are the maps ever published, `current` the pointer; a null pointer is the empty map at 0. */
  datatype State<V> = State(snapshots: seq<map<string, V>>, current: nat, calls: seq<Call<V>>, history: seq<Event<V>>)

  datatype Action<V> =
    | Begin(op: Op<V>)
    | Load(c: nat)
    | Exchange(c: nat, spurious: bool)

  function Init<V>(): State<V> {
    State([map[]], 0, [], [])
  }

  /** The map a call wants to publish. */
  function Edited<V>(m: map<string, V>, op: Op<V>): map<string, V> {
    match op
    case Add(name, v) => m[name := v]
    case Remove(name) => m - {name}
  }

  /** What the call returns if its exchange succeeds. */
  function Winning<V>(m: map<string, V>, op: Op<V>): Outcome<V> {
    match op
    case Add(_, _) => Added(true)
    case Remove(name) => Removed(if name in m then Some(m[name]) else None)
  }

  /** There is nothing to do: the name is taken, or not there. */
  predicate Settles<V>(m: map<string, V>, op: Op<V>) {
    match op
    case Add(name, _) => name in m
    case Remove(name) => name !in m
  }

  function Losing<V>(op: Op<V>): Outcome<V> {
    match op
    case Add(_, _) => Added(false)
    case Remove(_) => Removed(None)
  }

  function LoadStep<V>(s: State<V>, c: nat): Option<State<V>>
    requires c < |s.calls|
  {
    if s.calls[c].pc != Start || s.current >= |s.snapshots| then None
    else
      var op := s.calls[c].op;
      if Settles(s.snapshots[s.current], op) then
        Some(s.(calls := s.calls[c := Call(op, Done(Losing(op)))], history := s.history + [Event(c, op, Losing(op))]))
      else Some(s.(calls := s.calls[c := Call(op, Holding(s.current))]))
  }

  function ExchangeStep<V>(s: State<V>, c: nat, spurious: bool): Option<State<V>>
    requires c < |s.calls|
  {
    match s.calls[c].pc
    case Holding(id) =>
      var op := s.calls[c].op;
      if id >= |s.snapshots| then None
      else if spurious || id != s.current then Some(s.(calls := s.calls[c := Call(op, Start)]))
      else
        var m := s.snapshots[id];
        Some(State(s.snapshots + [Edited(m, op)], |s.snapshots|, s.calls[c := Call(op, Done(Winning(m, op)))],
                   s.history + [Event(c, op, Winning(m, op))]))
    case _ => None
  }

  function Next<V>(s: State<V>, a: Action<V>): Option<State<V>> {
    match a
    case Begin(op) => Some(s.(calls := s.calls + [Call(op, Start)]))
    case Load(c) => if c < |s.calls| then LoadStep(s, c) else None
    case Exchange(c, spurious) => if c < |s.calls| then ExchangeStep(s, c, spurious) else None
  }

  ghost predicate StepAt<V>(tr: seq<State<V>>, acts: seq<Action<V>>, n: nat)
    requires n < |acts| && n + 1 < |tr|
  {
    Next(tr[n], acts[n]) == Some(tr[n + 1])
  }

  ghost predicate Run<V>(tr: seq<State<V>>, acts: seq<Action<V>>) {
    && |tr| == |acts| + 1
    && tr[0] == Init()
    && forall n :: 0 <= n < |acts| ==> StepAt(tr, acts, n)
  }

  // ----- the atomic map -----

  /** The map with single atomic operations: what it returns and what it becomes. */
  function AtomicOutcome<V>(m: map<string, V>, op: Op<V>): Outcome<V> {
    match op
    case Add(name, _) => Added(name !in m)
    case Remove(name) => Removed(if name in m then Some(m[name]) else None)
  }

  function AtomicMap<V>(m: map<string, V>, op: Op<V>): map<string, V> {
    match op
    case Add(name, v) => if name in m then m else m[name := v]
    case Remove(name) => m - {name}
  }

  /** The map after the first `n` events, done one at a time. */
  ghost function MapAfter<V>(history: seq<Event<V>>, n: nat): map<string, V>
    requires n <= |history|
  {
    if n == 0 then map[] else AtomicMap(MapAfter(history, n - 1), history[n - 1].op)
  }

  ghost predicate AtomicAt<V>(history: seq<Event<V>>, n: nat)
    requires n < |history|
  {
    history[n].outcome == AtomicOutcome(MapAfter(history, n), history[n].op)
  }

  /** Every event returned what the atomic map would have returned at that point. */
  ghost predicate Atomic<V>(history: seq<Event<V>>) {
    forall n :: 0 <= n < |history| ==> AtomicAt(history, n)
  }

  lemma MapStep<V>(history: seq<Event<V>>, n: nat)
    requires n < |history|
    ensures MapAfter(history, n + 1) == AtomicMap(MapAfter(history, n), history[n].op)
  {
  }

  ghost predicate Took<V>(history: seq<Event<V>>, c: nat, outcome: Outcome<V>) {
    exists n :: 0 <= n < |history| && history[n].call == c && history[n].outcome == outcome
  }

  ghost predicate Inv<V>(s: State<V>) {
    && s.current < |s.snapshots|
    && s.snapshots[s.current] == MapAfter(s.history, |s.history|)
    && Atomic(s.history)
    && (forall c :: 0 <= c < |s.calls| && s.calls[c].pc.Holding? ==>
          s.calls[c].pc.snapshot < |s.snapshots| && !Settles(s.snapshots[s.calls[c].pc.snapshot], s.calls[c].op))
    && (forall n :: 0 <= n < |s.history| ==>
          && s.history[n].call < |s.calls| && s.calls[s.history[n].call].pc == Done(s.history[n].outcome)
          && s.calls[s.history[n].call].op == s.history[n].op)
    && (forall i, j :: 0 <= i < j < |s.history| ==> s.history[i].call != s.history[j].call)
    && (forall c :: 0 <= c < |s.calls| && s.calls[c].pc.Done? ==> Took(s.history, c, s.calls[c].pc.outcome))
  }

  lemma {:induction false} MapAfterPrefix<V>(h: seq<Event<V>>, e: Event<V>, n: nat)
    requires n <= |h|
    ensures MapAfter(h + [e], n) == MapAfter(h, n)
  {
    if n > 0 {
      MapAfterPrefix(h, e, n - 1);
    }
  }

  lemma AtomicAppends<V>(h: seq<Event<V>>, e: Event<V>)
    requires Atomic(h) && e.outcome == AtomicOutcome(MapAfter(h, |h|), e.op)
    ensures Atomic(h + [e]) && MapAfter(h + [e], |h| + 1) == AtomicMap(MapAfter(h, |h|), e.op)
  {
    hide MapAfter;
    forall n | 0 <= n < |h| + 1
      ensures AtomicAt(h + [e], n)
    {
      MapAfterPrefix(h, e, n);
      assert n < |h| ==> AtomicAt(h, n);
    }
    MapAfterPrefix(h, e, |h|);
    MapStep(h + [e], |h|);
  }

  /** A call takes effect once, at the end of the history. */
  lemma HistoryGrows<V>(s: State<V>, s': State<V>, e: Event<V>)
    requires Inv(s) && s'.history == s.history + [e]
    requires e.call < |s.calls| && !s.calls[e.call].pc.Done?
    requires s'.calls == s.calls[e.call := Call(s.calls[e.call].op, Done(e.outcome))] && e.op == s.calls[e.call].op
    ensures forall n :: 0 <= n < |s'.history| ==>
              && s'.history[n].call < |s'.calls| && s'.calls[s'.history[n].call].pc == Done(s'.history[n].outcome)
              && s'.calls[s'.history[n].call].op == s'.history[n].op
    ensures forall i, j :: 0 <= i < j < |s'.history| ==> s'.history[i].call != s'.history[j].call
    ensures forall c :: 0 <= c < |s'.calls| && s'.calls[c].pc.Done? ==> Took(s'.history, c, s'.calls[c].pc.outcome)
  {
    hide Atomic, MapAfter;
    forall c | 0 <= c < |s'.calls| && s'.calls[c].pc.Done?
      ensures Took(s'.history, c, s'.calls[c].pc.outcome)
    {
      if c == e.call {
        assert s'.history[|s.history|] == e;
      } else {
        var n :| 0 <= n < |s.history| && s.history[n].call == c && s.history[n].outcome == s.calls[c].pc.outcome;
        assert s'.history[n] == s.history[n];
      }
    }
  }

  lemma NextKeeps<V>(s: State<V>, a: Action<V>)
    requires Inv(s)
    ensures var r := Next(s, a); r.Some? ==> Inv(r.value) && s.snapshots <= r.value.snapshots
  {
    hide Atomic, MapAfter;
    var r := Next(s, a);
    if r.Some? {
      var s' := r.value;
      if s'.history != s.history {
        var e := s'.history[|s.history|];
        AtomicAppends(s.history, e);
        assert s'.history == s.history + [e];
        HistoryGrows(s, s', e);
      } else {
        forall c | 0 <= c < |s'.calls| && s'.calls[c].pc.Done?
          ensures Took(s'.history, c, s'.calls[c].pc.outcome)
        {
          assert c < |s.calls| && s.calls[c].pc.Done?;
        }
      }
    }
  }

  lemma InitOk<V>()
    ensures Inv(Init<V>())
  {
  }

  lemma {:induction false} RunKeeps<V>(tr: seq<State<V>>, acts: seq<Action<V>>, n: nat)
    requires Run(tr, acts) && n < |tr|
    ensures Inv(tr[n])
  {
    hide Inv, Next;
    if n == 0 {
      InitOk<V>();
    } else {
      RunKeeps(tr, acts, n - 1);
      assert StepAt(tr, acts, n - 1);
      NextKeeps(tr[n - 1], acts[n - 1]);
    }
  }

  // ----- what it promises -----

  lemma StepAppends<V>(s: State<V>, a: Action<V>)
    ensures var r := Next(s, a); r.Some? ==> s.history <= r.value.history
  {
  }

  lemma {:induction false} HistoryOnlyGrows<V>(tr: seq<State<V>>, acts: seq<Action<V>>, n: nat, k: nat)
    requires Run(tr, acts) && n <= k < |tr|
    ensures tr[n].history <= tr[k].history
    decreases k
  {
    hide Next;
    if n < k {
      HistoryOnlyGrows(tr, acts, n, k - 1);
      assert StepAt(tr, acts, k - 1);
      StepAppends(tr[k - 1], acts[k - 1]);
    }
  }

  /** In state `k` the call of event `i` had returned and that of event `j` had not begun. */
  ghost predicate Earlier<V>(s: State<V>, h: seq<Event<V>>, i: nat, j: nat) {
    && i < |h| && j < |h|
    && h[i].call < |s.calls| && s.calls[h[i].call].pc.Done? && |s.calls| <= h[j].call
  }

  /** The history respects real time: a call that returned before another began took effect before it. */
  ghost predicate RealTime<V>(tr: seq<State<V>>, n: nat)
    requires n < |tr|
  {
    forall k: nat, i: nat, j: nat :: k <= n && Earlier(tr[k], tr[n].history, i, j) ==> i < j
  }

  lemma EarlierIsBefore<V>(s: State<V>, s': State<V>, i: nat, j: nat)
    requires Inv(s) && Inv(s') && s.history <= s'.history && Earlier(s, s'.history, i, j)
    ensures i < j
  {
    hide Atomic, MapAfter;
    var c := s'.history[i].call;
    var at :| 0 <= at < |s.history| && s.history[at].call == c;
    assert s'.history[at] == s.history[at];
  }

  /**
   * Every run is a run of the atomic map: the calls that returned took effect one after the other, in an order that
   * respects real time, each with the result of the atomic operation, and the current snapshot is what they made of
   * the empty map, so no update is lost.
   */
  lemma RefinesAtomicMap<V>(tr: seq<State<V>>, acts: seq<Action<V>>, n: nat)
    requires Run(tr, acts) && n < |tr|
    ensures Atomic(tr[n].history)
    ensures tr[n].current < |tr[n].snapshots| && tr[n].snapshots[tr[n].current] == MapAfter(tr[n].history,
              |tr[n].history|)
    ensures forall c :: 0 <= c < |tr[n].calls| && tr[n].calls[c].pc.Done? ==> Took(tr[n].history, c,
              tr[n].calls[c].pc.outcome)
    ensures forall i, j :: 0 <= i < j < |tr[n].history| ==> tr[n].history[i].call != tr[n].history[j].call
    ensures RealTime(tr, n)
  {
    RunKeeps(tr, acts, n);
    forall k: nat, i: nat, j: nat | k <= n && Earlier(tr[k], tr[n].history, i, j)
      ensures i < j
    {
      RunKeeps(tr, acts, k);
      HistoryOnlyGrows(tr, acts, k, n);
      EarlierIsBefore(tr[k], tr[n], i, j);
    }
  }

  /** A snapshot somebody holds never changes. */
  lemma {:induction false} SnapshotsAreFrozen<V>(tr: seq<State<V>>, acts: seq<Action<V>>, n: nat, k: nat)
    requires Run(tr, acts) && n <= k < |tr|
    ensures tr[n].snapshots <= tr[k].snapshots
    decreases k
  {
    hide Inv, Next;
    if n < k {
      SnapshotsAreFrozen(tr, acts, n, k - 1);
      RunKeeps(tr, acts, k - 1);
      assert StepAt(tr, acts, k - 1);
      NextKeeps(tr[k - 1], acts[k - 1]);
    }
  }

  ghost predicate AddsAt<V>(h: seq<Event<V>>, n: nat, name: string) {
    n < |h| && h[n].op.Add? && h[n].op.name == name && h[n].outcome == Added(true)
  }

  ghost predicate RemovesAt<V>(h: seq<Event<V>>, n: nat, name: string) {
    n < |h| && h[n].op.Remove? && h[n].op.name == name && h[n].outcome.Removed? && h[n].outcome.was.Some?
  }

  /** Between a winning add and a remove the name keeps the value that was added. */
  lemma {:induction false} ValueStays<V>(h: seq<Event<V>>, i: nat, j: nat, name: string)
    requires Atomic(h) && AddsAt(h, i, name) && i < j <= |h|
    requires forall k :: i < k < j ==> !RemovesAt(h, k, name)
    ensures var m := MapAfter(h, j); name in m && m[name] == h[i].op.v
    decreases j
  {
    hide MapAfter;
    MapStep(h, j - 1);
    assert AtomicAt(h, j - 1);
    if i + 1 < j {
      ValueStays(h, i, j - 1, name);
      assert !RemovesAt(h, j - 1, name);
    }
  }

  /** Of the adds of one name exactly one wins until the name is removed. */
  lemma OneWinner<V>(h: seq<Event<V>>, i: nat, j: nat, name: string)
    requires Atomic(h) && i < j && AddsAt(h, i, name) && AddsAt(h, j, name)
    ensures exists k :: i < k < j && RemovesAt(h, k, name)
  {
    assert AtomicAt(h, j);
    if !exists k :: i < k < j && RemovesAt(h, k, name) {
      ValueStays(h, i, j, name);
    }
  }

  /** A remove hands out the very value that the last winning add put in. */
  lemma RemoveReturnsWhatWasAdded<V>(h: seq<Event<V>>, i: nat, j: nat, name: string)
    requires Atomic(h) && i < j && AddsAt(h, i, name) && RemovesAt(h, j, name)
    requires forall k :: i < k < j ==> !RemovesAt(h, k, name)
    ensures h[j].outcome == Removed(Some(h[i].op.v))
  {
    ValueStays(h, i, j, name);
    assert AtomicAt(h, j);
  }

  /** A winning remove takes the name out, and only an add brings it back. */
  lemma {:induction false} RemovedStaysOut<V>(h: seq<Event<V>>, i: nat, j: nat, name: string)
    requires Atomic(h) && RemovesAt(h, i, name) && i < j <= |h| && forall k :: i < k < j ==> !AddsAt(h, k, name)
    ensures name !in MapAfter(h, j)
    decreases j
  {
    hide MapAfter;
    MapStep(h, j - 1);
    assert AtomicAt(h, j - 1);
    if i + 1 < j {
      RemovedStaysOut(h, i, j - 1, name);
      assert !AddsAt(h, j - 1, name);
    }
  }

  /** Nobody removes a name twice: between two winning removes it was added. */
  lemma OneRemover<V>(h: seq<Event<V>>, i: nat, j: nat, name: string)
    requires Atomic(h) && i < j && RemovesAt(h, i, name) && RemovesAt(h, j, name)
    ensures exists k :: i < k < j && AddsAt(h, k, name)
  {
    assert AtomicAt(h, j);
    if !exists k :: i < k < j && AddsAt(h, k, name) {
      RemovedStaysOut(h, i, j, name);
    }
  }

  /** At event `i` the name was added, and up to event `n` nobody removed it. */
  ghost predicate Held<V>(h: seq<Event<V>>, i: nat, n: nat, name: string) {
    i < n <= |h| && AddsAt(h, i, name) && forall k :: i < k < n ==> !RemovesAt(h, k, name)
  }

  lemma NothingAtFirst<V>(h: seq<Event<V>>)
    ensures MapAfter(h, 0) == map[]
  {
  }

  lemma {:induction false} HeldSince<V>(h: seq<Event<V>>, n: nat, name: string) returns (i: nat)
    requires Atomic(h) && n <= |h| && name in MapAfter(h, n)
    ensures Held(h, i, n, name)
  {
    hide MapAfter;
    NothingAtFirst(h);
    MapStep(h, n - 1);
    assert AtomicAt(h, n - 1);
    if name in MapAfter(h, n - 1) {
      i := HeldSince(h, n - 1, name);
    } else {
      i := n - 1;
    }
  }

  /** A name is there exactly from a winning add of it to the next winning remove, with the value that was added. */
  lemma PresentExactlyWhileHeld<V>(h: seq<Event<V>>, n: nat, name: string)
    requires Atomic(h) && n <= |h|
    ensures name in MapAfter(h, n) <==> exists i: nat :: Held(h, i, n, name)
    ensures forall i: nat :: Held(h, i, n, name) ==> name in MapAfter(h, n) && MapAfter(h, n)[name] == h[i].op.v
  {
    hide MapAfter;
    if name in MapAfter(h, n) {
      var i := HeldSince(h, n, name);
    }
    forall i: nat | Held(h, i, n, name)
      ensures name in MapAfter(h, n) && MapAfter(h, n)[name] == h[i].op.v
    {
      ValueStays(h, i, n, name);
    }
  }

  /** An add wins exactly if the name is not held, a remove exactly if it is; it then hands out the value added. */
  lemma WinsExactly<V>(h: seq<Event<V>>, n: nat)
    requires Atomic(h) && n < |h|
    ensures var name := h[n].op.name;
            if h[n].op.Add? then
              h[n].outcome == Added(!exists i: nat :: Held(h, i, n, name))
            else
              && (forall i: nat :: Held(h, i, n, name) ==> h[n].outcome == Removed(Some(h[i].op.v)))
              && ((forall i: nat :: !Held(h, i, n, name)) ==> h[n].outcome == Removed(None))
  {
    hide MapAfter;
    assert AtomicAt(h, n);
    PresentExactlyWhileHeld(h, n, h[n].op.name);
  }

  /** An add that lost had a winner before it, and nobody removed the name in between. */
  lemma LoserHasAWinner<V>(h: seq<Event<V>>, n: nat, name: string)
    requires Atomic(h) && n < |h| && h[n].op.Add? && h[n].op.name == name
    ensures h[n].outcome == Added(true) || exists i: nat :: Held(h, i, n, name)
  {
    WinsExactly(h, n);
  }
}
