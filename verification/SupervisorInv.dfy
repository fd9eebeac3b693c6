/** The invariant of the supervisor: records and watches, licences to fork, one token for every boot slot. */
module SupervisorInv {
  import opened Options
  import opened Supervisor

  /** An executable the supervisor may launch for `slot`: the table's, for a boot slot or one that has reported in. */
  ghost predicate Licensed(descs: seq<Desc>, accepted: set<nat>, slot: nat, exe: string) {
    && slot < |descs| && exe == descs[slot].exe != ""
    && (descs[slot].boot || (descs[slot].restart && slot in accepted))
  }

  ghost predicate RecOk(descs: seq<Desc>, pm: Pm, r: Rec) {
    && (r.exe == "" || Licensed(descs, pm.accepted, r.slot, r.exe))
    && (r.fd >= 0 ==> r.fd in pm.watched)
    && (ShouldLaunchAtBoot(descs, r.slot) ==> r.fd < 0 && r.exe == descs[r.slot].exe)
  }

  ghost predicate Apart(a: Rec, b: Rec) {
    && a.pid != b.pid
    && (a.fd >= 0 && b.fd >= 0 ==> a.fd != b.fd && a.slot != b.slot)
  }

  ghost predicate ForkOk(descs: seq<Desc>, f: Fork) {
    && f.slot < |descs| && f.exe == descs[f.slot].exe != "" && f.done
    && (descs[f.slot].boot || (descs[f.slot].restart && f.reported))
  }

  ghost predicate Watches(recs: seq<Rec>, fd: int) {
    fd >= 0 && exists i :: 0 <= i < |recs| && recs[i].fd == fd
  }

  ghost predicate PmInv(descs: seq<Desc>, pm: Pm) {
    && (forall i :: 0 <= i < |pm.recs| ==> RecOk(descs, pm, pm.recs[i]))
    && (forall i, j :: 0 <= i < j < |pm.recs| ==> Apart(pm.recs[i], pm.recs[j]))
    && (forall fd :: fd in pm.watched ==> Watches(pm.recs, fd))
    && (forall t :: t in pm.timers ==> Licensed(descs, pm.accepted, t.slot, t.exe))
    && (forall i :: 0 <= i < |pm.forks| ==> ForkOk(descs, pm.forks[i]))
  }

  // ----- counting records -----

  ghost function RecCount(recs: seq<Rec>, slot: nat): nat {
    if recs == [] then 0 else (if recs[0].slot == slot then 1 else 0) + RecCount(recs[1..], slot)
  }

  lemma {:induction false} CountAppend(recs: seq<Rec>, r: Rec, slot: nat)
    ensures RecCount(recs + [r], slot) == RecCount(recs, slot) + (if r.slot == slot then 1 else 0)
  {
    if recs == [] {
      assert [] + [r] == [r];
    } else {
      assert (recs + [r])[1..] == recs[1..] + [r];
      CountAppend(recs[1..], r, slot);
    }
  }

  lemma {:induction false} CountDrop(recs: seq<Rec>, k: nat, slot: nat)
    requires k < |recs|
    ensures RecCount(Drop(recs, k), slot) + (if recs[k].slot == slot then 1 else 0) == RecCount(recs, slot)
  {
    if k == 0 {
      assert Drop(recs, 0) == recs[1..];
    } else {
      assert Drop(recs, k) == [recs[0]] + Drop(recs[1..], k - 1);
      assert Drop(recs, k)[1..] == Drop(recs[1..], k - 1);
      CountDrop(recs[1..], k - 1, slot);
    }
  }

  lemma {:induction false} CountSame(a: seq<Rec>, b: seq<Rec>, slot: nat)
    requires |a| == |b| && forall i :: 0 <= i < |a| ==> a[i].slot == b[i].slot
    ensures RecCount(a, slot) == RecCount(b, slot)
  {
    if a != [] {
      CountSame(a[1..], b[1..], slot);
    }
  }

  lemma {:induction false} CountAtLeast(recs: seq<Rec>, slot: nat, i: nat, j: nat)
    requires i < |recs| && recs[i].slot == slot
    ensures RecCount(recs, slot) >= 1
    ensures i < j < |recs| && recs[j].slot == slot ==> RecCount(recs, slot) >= 2
  {
    if i > 0 {
      CountAtLeast(recs[1..], slot, i - 1, if j > 0 then j - 1 else 0);
    } else if i < j < |recs| && recs[j].slot == slot {
      CountAtLeast(recs[1..], slot, j - 1, j - 1);
    }
  }

  lemma {:induction false} CountNone(recs: seq<Rec>, slot: nat)
    ensures RecCount(recs, slot) == 0 <==> forall i :: 0 <= i < |recs| ==> recs[i].slot != slot
  {
    if recs != [] {
      CountNone(recs[1..], slot);
      assert forall i :: 0 < i < |recs| ==> recs[i] == recs[1..][i - 1];
    }
  }

  // ----- the process manager's own steps -----

  /** The record at `k` and its watch are gone. */
  ghost function Gone(pm: Pm, k: nat): Pm
    requires k < |pm.recs|
  {
    pm.(recs := Drop(pm.recs, k), watched := if pm.recs[k].fd < 0 then pm.watched else pm.watched - {pm.recs[k].fd})
  }

  lemma UnwatchDrop(pm: Pm, k: nat)
    requires k < |pm.recs|
    ensures var u := Unwatch(pm, k); |u.recs| == |pm.recs| && u.(recs := Drop(u.recs, k)) == Gone(pm, k)
  {
    var u := Unwatch(pm, k);
    assert Drop(u.recs, k) == Drop(pm.recs, k);
  }

  lemma DropAt(recs: seq<Rec>, k: nat)
    requires k < |recs|
    ensures |Drop(recs, k)| == |recs| - 1
    ensures forall i :: 0 <= i < |recs| - 1 ==> Drop(recs, k)[i] == recs[if i < k then i else i + 1]
    ensures forall i :: 0 <= i < |recs| && i != k ==> recs[i] in Drop(recs, k)
  {
    var r := Drop(recs, k);
    forall i | 0 <= i < |recs| && i != k
      ensures recs[i] in r
    {
      assert r[if i < k then i else i - 1] == recs[i];
    }
  }

  lemma GoneWatches(pm: Pm, k: nat)
    requires k < |pm.recs| && forall fd :: fd in pm.watched ==> Watches(pm.recs, fd)
    ensures forall fd :: fd in Gone(pm, k).watched ==> Watches(Gone(pm, k).recs, fd)
  {
    hide Drop;
    var r := Gone(pm, k);
    DropAt(pm.recs, k);
    forall fd | fd in r.watched
      ensures Watches(r.recs, fd)
    {
      var i :| 0 <= i < |pm.recs| && pm.recs[i].fd == fd;
      var j :| 0 <= j < |r.recs| && r.recs[j] == pm.recs[i];
    }
  }

  lemma GoneRec(descs: seq<Desc>, pm: Pm, k: nat, j: nat)
    requires PmInv(descs, pm) && k < |pm.recs| && j < |pm.recs| && j != k
    ensures RecOk(descs, Gone(pm, k), pm.recs[j])
  {
    hide Drop, Licensed, ForkOk;
    assert RecOk(descs, pm, pm.recs[j]);
    if j < k {
      assert Apart(pm.recs[j], pm.recs[k]);
    } else {
      assert Apart(pm.recs[k], pm.recs[j]);
    }
  }

  lemma GoneKeeps(descs: seq<Desc>, pm: Pm, k: nat)
    requires PmInv(descs, pm) && k < |pm.recs|
    ensures PmInv(descs, Gone(pm, k))
  {
    hide Drop, Licensed, ForkOk, RecOk, Apart;
    var r := Gone(pm, k);
    DropAt(pm.recs, k);
    GoneWatches(pm, k);
    forall i | 0 <= i < |r.recs|
      ensures RecOk(descs, r, r.recs[i])
    {
      GoneRec(descs, pm, k, if i < k then i else i + 1);
    }
    forall i, j | 0 <= i < j < |r.recs|
      ensures Apart(r.recs[i], r.recs[j])
    {
      assert Apart(pm.recs[if i < k then i else i + 1], pm.recs[if j < k then j else j + 1]);
    }
  }

  lemma UnwatchKeeps(descs: seq<Desc>, pm: Pm, k: nat)
    requires PmInv(descs, pm) && k < |pm.recs|
    ensures PmInv(descs, Unwatch(pm, k))
  {
    hide Licensed, ForkOk;
    var r := Unwatch(pm, k);
    if pm.recs[k].fd >= 0 {
      forall i | 0 <= i < |r.recs|
        ensures RecOk(descs, r, r.recs[i])
      {
        assert RecOk(descs, pm, pm.recs[i]);
        assert i < k ==> Apart(pm.recs[i], pm.recs[k]);
        assert k < i ==> Apart(pm.recs[k], pm.recs[i]);
      }
      forall i, j | 0 <= i < j < |r.recs|
        ensures Apart(r.recs[i], r.recs[j])
      {
        assert Apart(pm.recs[i], pm.recs[j]);
      }
      forall fd | fd in r.watched
        ensures Watches(r.recs, fd)
      {
        var i :| 0 <= i < |pm.recs| && pm.recs[i].fd == fd;
        assert r.recs[i].fd == fd;
      }
    }
  }

  lemma CreateKeeps(descs: seq<Desc>, pm: Pm, slot: nat, exe: string, allowed: bool, forked: Option<nat>)
    requires PmInv(descs, pm) && (exe == "" || Licensed(descs, pm.accepted, slot, exe))
    requires forked.Some? ==> forall i :: 0 <= i < |pm.recs| ==> pm.recs[i].pid != forked.value
    ensures PmInv(descs, Create(pm, slot, exe, allowed, forked))
  {
    var r := Create(pm, slot, exe, allowed, forked);
    forall i | 0 <= i < |r.recs|
      ensures RecOk(descs, r, r.recs[i])
    {
      assert i < |pm.recs| ==> RecOk(descs, pm, pm.recs[i]);
    }
    forall fd | fd in r.watched
      ensures Watches(r.recs, fd)
    {
      var i :| 0 <= i < |pm.recs| && pm.recs[i].fd == fd;
      assert r.recs[i].fd == fd;
    }
  }

  /** The slot's records are gone, and nobody else's. */
  ghost predicate Forgot(pm: Pm, r: Pm, slot: nat) {
    && (forall i :: 0 <= i < |r.recs| ==> r.recs[i].slot != slot && r.recs[i] in pm.recs)
    && (forall i :: 0 <= i < |pm.recs| && pm.recs[i].slot != slot ==> pm.recs[i] in r.recs)
    && (forall s :: s != slot ==> RecCount(r.recs, s) == RecCount(pm.recs, s))
  }

  lemma {:induction false} ForgetKeeps(descs: seq<Desc>, pm: Pm, slot: nat, i: nat)
    requires PmInv(descs, pm) && i <= |pm.recs| && forall j :: 0 <= j < i ==> pm.recs[j].slot != slot
    ensures PmInv(descs, Forget(pm, slot, i)) && Forgot(pm, Forget(pm, slot, i), slot)
    decreases |pm.recs| - i
  {
    hide PmInv;
    if i < |pm.recs| {
      if pm.recs[i].slot != slot {
        ForgetKeeps(descs, pm, slot, i + 1);
      } else {
        UnwatchDrop(pm, i);
        GoneKeeps(descs, pm, i);
        DropAt(pm.recs, i);
        ForgetKeeps(descs, Gone(pm, i), slot, i);
        forall s | s != slot
          ensures RecCount(Drop(pm.recs, i), s) == RecCount(pm.recs, s)
        {
          CountDrop(pm.recs, i, s);
        }
      }
    }
  }

  lemma {:induction false} ForgetWatches(descs: seq<Desc>, pm: Pm, slot: nat, i: nat)
    requires i <= |pm.recs|
    ensures Forget(pm, slot, i).watched <= pm.watched
    decreases |pm.recs| - i
  {
    if i < |pm.recs| {
      if pm.recs[i].slot != slot {
        ForgetWatches(descs, pm, slot, i + 1);
      } else {
        UnwatchDrop(pm, i);
        ForgetWatches(descs, Gone(pm, i), slot, i);
      }
    }
  }

  lemma RecordAdded(descs: seq<Desc>, f: Pm, rec: Rec)
    requires PmInv(descs, f) && rec.fd >= 0 && rec.fd !in f.watched
    requires forall i :: 0 <= i < |f.recs| ==> f.recs[i].slot != rec.slot && f.recs[i].pid != rec.pid
    requires rec.exe == "" || Licensed(descs, f.accepted + {rec.slot}, rec.slot, rec.exe)
    requires !ShouldLaunchAtBoot(descs, rec.slot)
    ensures PmInv(descs, f.(recs := f.recs + [rec], watched := f.watched + {rec.fd},
              accepted := f.accepted + {rec.slot}))
  {
    var r := f.(recs := f.recs + [rec], watched := f.watched + {rec.fd}, accepted := f.accepted + {rec.slot});
    forall i | 0 <= i < |r.recs|
      ensures RecOk(descs, r, r.recs[i])
      ensures i < |f.recs| ==> Apart(r.recs[i], rec)
    {
      if i < |f.recs| {
        assert RecOk(descs, f, f.recs[i]);
      }
    }
    assert r.recs[|f.recs|] == rec;
    forall fd | fd in r.watched
      ensures Watches(r.recs, fd)
    {
      if fd != rec.fd {
        var i :| 0 <= i < |f.recs| && f.recs[i].fd == fd;
        assert r.recs[i].fd == fd;
      }
    }
  }

  lemma OnlineKeeps(descs: seq<Desc>, pm: Pm, slot: nat, pid: nat, fd: Option<int>)
    requires PmInv(descs, pm)
    requires fd.Some? ==> fd.value >= 0 && fd.value !in pm.watched
    requires forall i :: 0 <= i < |pm.recs| && pm.recs[i].pid == pid ==> pm.recs[i].slot == slot
    ensures PmInv(descs, HandleOnline(descs, pm, slot, pid, fd))
    ensures forall s :: s != slot || ShouldLaunchAtBoot(descs, s) ==>
              RecCount(HandleOnline(descs, pm, slot, pid, fd).recs, s) == RecCount(pm.recs, s)
  {
    hide Forget, ForkOk, RecOk, Apart;
    if !(slot == DAEMON_SLOT || slot >= |descs| || ShouldLaunchAtBoot(descs, slot) || HasChild(pm.recs, slot)) {
      ForgetKeeps(descs, pm, slot, 0);
      var f := Forget(pm, slot, 0);
      if fd.Some? {
        var exe := if ShouldRelaunchAfterOnline(descs, slot) then descs[slot].exe else "";
        ForgetWatches(descs, pm, slot, 0);
        RecordAdded(descs, f, Rec(slot, exe, pid, fd.value));
        forall s | s != slot
          ensures RecCount(f.recs + [Rec(slot, exe, pid, fd.value)], s) == RecCount(f.recs, s)
        {
          CountAppend(f.recs, Rec(slot, exe, pid, fd.value), s);
        }
      }
    }
  }

  // ----- the whole system -----

  ghost predicate MsgKnown(owner: map<nat, nat>, m: PmMsg) {
    match m
    case CreateReq(_) => true
    case Online(slot, pid) => pid in owner && owner[pid] == slot
    case WaitExit(pid) => pid in owner
    case CrashReq(pid) => pid in owner
  }

  /** Every process id that is mentioned anywhere was given to a slot. */
  ghost predicate Known(s: State) {
    && (forall i :: 0 <= i < |s.pm.recs| ==>
                  s.pm.recs[i].pid in s.owner && s.owner[s.pm.recs[i].pid] == s.pm.recs[i].slot)
    && (forall pid :: pid in s.alive ==> pid in s.owner)
    && (forall m :: m in s.queue ==> MsgKnown(s.owner, m))
    && (forall m :: m in s.notices ==> m.pid in s.owner && s.owner[m.pid] == m.slot)
  }

  /** What stands for the supervision of a boot slot. */
  ghost function TokenCount(descs: seq<Desc>, s: State, slot: nat): nat
    requires slot < |descs|
  {
    multiset(s.queue)[CreateReq(slot)] + s.pm.timers[Retry(slot, descs[slot].exe)] + RecCount(s.pm.recs, slot)
  }

  ghost predicate Tokens(descs: seq<Desc>, s: State) {
    forall slot :: ShouldLaunchAtBoot(descs, slot) ==> TokenCount(descs, s, slot) == if slot in s.started then 1 else 0
  }

  /** The process is alive, or the news of its end is on the way to its record. */
  ghost function InFlight(s: State, slot: nat, pid: nat): nat {
    (if pid in s.alive then 1 else 0) + multiset(s.queue)[WaitExit(pid)]
    + multiset(s.notices)[CrashNotice(slot, pid)] + multiset(s.queue)[CrashReq(pid)]
  }

  ghost predicate Children(descs: seq<Desc>, s: State) {
    && (forall i :: 0 <= i < |s.pm.recs| && ShouldLaunchAtBoot(descs, s.pm.recs[i].slot) ==>
          InFlight(s, s.pm.recs[i].slot, s.pm.recs[i].pid) == 1)
    && (forall pid :: pid in s.alive && pid in s.owner && ShouldLaunchAtBoot(descs, s.owner[pid]) ==>
          FindPid(s.pm.recs, pid) < |s.pm.recs|)
  }

  ghost predicate SupInv(descs: seq<Desc>, s: State) {
    PmInv(descs, s.pm) && Known(s) && Tokens(descs, s) && Children(descs, s)
  }

  lemma InitOk(descs: seq<Desc>)
    ensures SupInv(descs, Init)
  {
  }

  lemma TailCounts<T>(q: seq<T>)
    requires q != []
    ensures multiset(q) == multiset(q[1..]) + multiset{q[0]}
    ensures forall m :: m in q[1..] ==> m in q
  {
    assert q == [q[0]] + q[1..];
  }

  /** A process id without an owner is mentioned nowhere. */
  lemma FreshIsUnheardOf(s: State, slot: nat, pid: nat)
    requires Known(s) && pid !in s.owner
    ensures InFlight(s, slot, pid) == 0 && forall i :: 0 <= i < |s.pm.recs| ==> s.pm.recs[i].pid != pid
  {
    assert WaitExit(pid) in s.queue ==> MsgKnown(s.owner, WaitExit(pid));
    assert CrashReq(pid) in s.queue ==> MsgKnown(s.owner, CrashReq(pid));
  }

  lemma NewChild(descs: seq<Desc>, s: State, slot: nat, exe: string, pid: nat)
    requires Known(s) && Children(descs, s) && pid !in s.owner && InFlight(s, slot, pid) == 0
    requires forall b :: ShouldLaunchAtBoot(descs, b) ==>
               TokenCount(descs, s, b) + (if b == slot then 1 else 0) == if b in s.started then 1 else 0
    ensures var rec := Rec(slot, exe, pid, -1);
            var r := s.(pm := s.pm.(recs := s.pm.recs + [rec], forks := s.pm.forks + [Fork(slot, exe, pid, true,
                      slot in s.pm.accepted)]),
                        alive := s.alive + {pid}, owner := s.owner[pid := slot]);
            Known(r) && Tokens(descs, r) && Children(descs, r)
  {
    var rec := Rec(slot, exe, pid, -1);
    var recs := s.pm.recs + [rec];
    var r := s.(pm := s.pm.(recs := recs, forks := s.pm.forks + [Fork(slot, exe, pid, true, slot in s.pm.accepted)]),
                alive := s.alive + {pid}, owner := s.owner[pid := slot]);
    forall b | ShouldLaunchAtBoot(descs, b)
      ensures TokenCount(descs, r, b) == if b in r.started then 1 else 0
    {
      CountAppend(s.pm.recs, rec, b);
    }
    forall m | m in r.queue
      ensures MsgKnown(r.owner, m)
    {
      assert MsgKnown(s.owner, m);
    }
    forall i | 0 <= i < |recs| && ShouldLaunchAtBoot(descs, recs[i].slot)
      ensures InFlight(r, recs[i].slot, recs[i].pid) == 1
    {
      if i < |s.pm.recs| {
        assert InFlight(s, recs[i].slot, recs[i].pid) == 1;
      }
    }
    forall p | p in r.alive && ShouldLaunchAtBoot(descs, r.owner[p])
      ensures FindPid(recs, p) < |recs|
    {
      assert recs[|s.pm.recs|].pid == pid;
      if p != pid {
        assert recs[FindPid(s.pm.recs, p)].pid == p;
      }
    }
  }

  /**
   * createProcess for a slot whose token was just taken: the token is back, as a record or as a timer.
   * `s` still lacks the token.
   */
  lemma BornKeeps(descs: seq<Desc>, s: State, slot: nat, exe: string, allowed: bool, forked: Option<nat>)
    requires PmInv(descs, s.pm) && Known(s) && Children(descs, s) && FreshPid(s, forked)
    requires exe == "" || Licensed(descs, s.pm.accepted, slot, exe)
    requires forall b :: ShouldLaunchAtBoot(descs, b) ==>
               TokenCount(descs, s, b) + (if b == slot then 1 else 0) == if b in s.started then 1 else 0
    requires ShouldLaunchAtBoot(descs, slot) ==> exe == descs[slot].exe
    ensures SupInv(descs, Born(s, Create(s.pm, slot, exe, allowed, forked)))
  {
    var pm := Create(s.pm, slot, exe, allowed, forked);
    var r := Born(s, pm);
    if forked.Some? {
      FreshIsUnheardOf(s, slot, forked.value);
    }
    CreateKeeps(descs, s.pm, slot, exe, allowed, forked);
    if exe != "" && allowed && forked.Some? {
      NewChild(descs, s, slot, exe, forked.value);
    } else {
      assert r.pm.recs == s.pm.recs;
    }
  }
}
