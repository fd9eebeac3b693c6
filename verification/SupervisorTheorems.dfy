/** What the supervisor promises over whole runs: one token for every boot slot, the fork policy, the watches. */
module SupervisorTheorems {
  import opened Options
  import opened Supervisor
  import opened SupervisorInv
  import opened SupervisorSteps

  /**
   * From the first launch request on, a boot slot has exactly one of a queued create request, a pending retry timer
   * and a process record; before it, none.
   */
  lemma SupervisionToken(descs: seq<Desc>, tr: seq<State>, acts: seq<Action>, n: nat, slot: nat)
    requires Run(descs, tr, acts) && n < |tr| && ShouldLaunchAtBoot(descs, slot)
    ensures TokenCount(descs, tr[n], slot) == if slot in tr[n].started then 1 else 0
  {
    RunKeeps(descs, tr, acts, n);
  }

  /** The record of a boot slot's child has the child alive, or exactly one message about its end on the way to it. */
  lemma NeverForgotten(descs: seq<Desc>, tr: seq<State>, acts: seq<Action>, n: nat, slot: nat)
    requires Run(descs, tr, acts) && n < |tr| && ShouldLaunchAtBoot(descs, slot) && slot in tr[n].started
    ensures || CreateReq(slot) in tr[n].queue
            || Retry(slot, descs[slot].exe) in tr[n].pm.timers
            || exists i :: 0 <= i < |tr[n].pm.recs| && tr[n].pm.recs[i].slot == slot
                           && InFlight(tr[n], slot, tr[n].pm.recs[i].pid) == 1
  {
    RunKeeps(descs, tr, acts, n);
    var s := tr[n];
    assert TokenCount(descs, s, slot) == 1;
    CountNone(s.pm.recs, slot);
    if RecCount(s.pm.recs, slot) > 0 {
      var i :| 0 <= i < |s.pm.recs| && s.pm.recs[i].slot == slot;
      assert InFlight(s, slot, s.pm.recs[i].pid) == 1;
    }
  }

  lemma OneRecord(descs: seq<Desc>, s: State, slot: nat, i: nat, j: nat)
    requires SupInv(descs, s) && ShouldLaunchAtBoot(descs, slot)
    requires i < |s.pm.recs| && j < |s.pm.recs| && s.pm.recs[i].slot == slot && s.pm.recs[j].slot == slot
    ensures i == j
  {
    hide PmInv, Known, Children;
    assert TokenCount(descs, s, slot) <= 1;
    if i < j {
      CountAtLeast(s.pm.recs, slot, i, j);
    } else if j < i {
      CountAtLeast(s.pm.recs, slot, j, i);
    }
  }

  /** A boot slot never has two living children. */
  lemma OneChildPerBootSlot(descs: seq<Desc>, tr: seq<State>, acts: seq<Action>, n: nat, p: nat, q: nat)
    requires Run(descs, tr, acts) && n < |tr| && p in tr[n].alive && q in tr[n].alive
    ensures p in tr[n].owner && q in tr[n].owner
    ensures tr[n].owner[p] == tr[n].owner[q] && ShouldLaunchAtBoot(descs, tr[n].owner[p]) ==> p == q
  {
    RunKeeps(descs, tr, acts, n);
    var s := tr[n];
    var slot := s.owner[p];
    if slot == s.owner[q] && ShouldLaunchAtBoot(descs, slot) && p != q {
      var i, j := FindPid(s.pm.recs, p), FindPid(s.pm.recs, q);
      OneRecord(descs, s, slot, i, j);
    }
  }

  // ----- forks -----

  /** At step `k` a report of `slot` is taken from the queue and gets its record. */
  ghost predicate AcceptsOnline(descs: seq<Desc>, s: State, a: Action, slot: nat) {
    && a.PmTakes? && a.fd.Some? && s.queue != [] && s.queue[0].Online? && s.queue[0].slot == slot
    && slot in HandleOnline(descs, s.pm.(accepted := {}), slot, s.queue[0].pid, a.fd).accepted
  }

  lemma {:induction false} ForgetIgnoresAccepted(pm: Pm, acc: set<nat>, slot: nat, i: nat)
    requires i <= |pm.recs|
    ensures Forget(pm.(accepted := acc), slot, i) == Forget(pm, slot, i).(accepted := acc)
    decreases |pm.recs| - i
  {
    if i < |pm.recs| {
      if pm.recs[i].slot != slot {
        ForgetIgnoresAccepted(pm, acc, slot, i + 1);
      } else {
        var u := Unwatch(pm, i);
        assert Unwatch(pm.(accepted := acc), i) == u.(accepted := acc);
        ForgetIgnoresAccepted(u.(recs := Drop(u.recs, i)), acc, slot, i);
      }
    }
  }

  lemma StepAccepts(descs: seq<Desc>, s: State, a: Action, slot: nat)
    requires Next(descs, s, a).Some?
    ensures slot in Next(descs, s, a).value.pm.accepted ==> slot in s.pm.accepted || AcceptsOnline(descs, s, a, slot)
  {
    if a.PmTakes? && s.queue != [] && s.queue[0].Online? {
      ForgetIgnoresAccepted(s.pm, {}, s.queue[0].slot, 0);
    }
  }

  lemma {:induction false} AcceptedEarlier(descs: seq<Desc>, tr: seq<State>, acts: seq<Action>, n: nat, slot: nat)
    requires Run(descs, tr, acts) && n < |tr| && slot in tr[n].pm.accepted
    ensures exists k :: 0 <= k < n && AcceptsOnline(descs, tr[k], acts[k], slot)
  {
    hide Next, AcceptsOnline;
    if n > 0 {
      assert StepAt(descs, tr, acts, n - 1);
      StepAccepts(descs, tr[n - 1], acts[n - 1], slot);
      if slot in tr[n - 1].pm.accepted {
        AcceptedEarlier(descs, tr, acts, n - 1, slot);
      }
    }
  }

  /** A step forks at most once, with what it read at that moment, and the child is new. */
  ghost predicate ForkedNow(s: State, s': State) {
    && |s'.pm.forks| == |s.pm.forks| + 1
    && var f := s'.pm.forks[|s.pm.forks|];
       && f.done == Allowed(s.flags, f.slot) && (f.reported <==> f.slot in s.pm.accepted)
       && f.pid !in s.owner && s'.alive == s.alive + {f.pid} && f.pid in s'.owner && s'.owner[f.pid] == f.slot
       && (forall p :: p in s.owner ==> p in s'.owner && s'.owner[p] == s.owner[p])
  }

  lemma PmForks(descs: seq<Desc>, s: State, forked: Option<nat>, fd: Option<int>)
    requires PmStep(descs, s, forked, fd).Some?
    ensures var s' := PmStep(descs, s, forked, fd).value; s'.pm.forks == s.pm.forks || ForkedNow(s, s')
  {
    hide Forget, FindPid, Drop, HandleExit;
    match s.queue[0]
    case CrashReq(pid) =>
      var k := FindPid(s.pm.recs, pid);
      if k < |s.pm.recs| {
        var u := Unwatch(s.pm, k);
        assert u.forks == s.pm.forks && u.accepted == s.pm.accepted;
      }
    case _ =>
  }

  lemma StepForks(descs: seq<Desc>, s: State, a: Action)
    requires Next(descs, s, a).Some?
    ensures var s' := Next(descs, s, a).value; s'.pm.forks == s.pm.forks || ForkedNow(s, s')
  {
    hide Forget;
    match a
    case PmTakes(forked, fd) => PmForks(descs, s, forked, fd);
    case _ =>
  }

  lemma LastForkOk(descs: seq<Desc>, tr: seq<State>, acts: seq<Action>, n: nat)
    requires Run(descs, tr, acts) && n < |acts| && |tr[n + 1].pm.forks| > |tr[n].pm.forks|
    ensures ForkOk(descs, tr[n + 1].pm.forks[|tr[n].pm.forks|])
  {
    RunKeeps(descs, tr, acts, n + 1);
  }

  /**
   * Whenever the supervisor forks, the executable is the table's and not empty, the slot's sync flag is DONE at that
   * moment, and the slot is a boot slot or a restart slot with an accepted report earlier in the run. No other child
   * of a boot slot is alive then.
   */
  lemma ForkPolicy(descs: seq<Desc>, tr: seq<State>, acts: seq<Action>, n: nat)
    requires Run(descs, tr, acts) && n < |acts| && tr[n + 1].pm.forks != tr[n].pm.forks
    ensures |tr[n + 1].pm.forks| == |tr[n].pm.forks| + 1
    ensures var f := tr[n + 1].pm.forks[|tr[n].pm.forks|];
            && f.slot < |descs| && f.exe == descs[f.slot].exe != ""
            && f.slot < |tr[n].flags| && tr[n].flags[f.slot]
            && (descs[f.slot].boot
                || (descs[f.slot].restart && exists k :: 0 <= k < n && AcceptsOnline(descs, tr[k], acts[k], f.slot)))
            && (descs[f.slot].boot ==> forall p :: p in tr[n].alive ==> p in tr[n].owner && tr[n].owner[p] != f.slot)
  {
    hide SupInv, Next, AcceptsOnline;
    assert StepAt(descs, tr, acts, n);
    StepForks(descs, tr[n], acts[n]);
    LastForkOk(descs, tr, acts, n);
    var f := tr[n + 1].pm.forks[|tr[n].pm.forks|];
    if !descs[f.slot].boot {
      AcceptedEarlier(descs, tr, acts, n, f.slot);
    } else {
      forall p | p in tr[n].alive
        ensures p in tr[n].owner && tr[n].owner[p] != f.slot
      {
        OneChildPerBootSlot(descs, tr, acts, n, p, p);
        OneChildPerBootSlot(descs, tr, acts, n + 1, p, f.pid);
      }
    }
  }

  // ----- watches -----

  /** The watched descriptors are exactly those of the records, each record has its own, and a slot has at most one. */
  lemma WatchesAreRecords(descs: seq<Desc>, tr: seq<State>, acts: seq<Action>, n: nat)
    requires Run(descs, tr, acts) && n < |tr|
    ensures forall fd :: fd in tr[n].pm.watched <==> Watches(tr[n].pm.recs, fd)
    ensures forall i, j :: 0 <= i < j < |tr[n].pm.recs| && tr[n].pm.recs[i].fd >= 0 && tr[n].pm.recs[j].fd >= 0 ==>
              tr[n].pm.recs[i].fd != tr[n].pm.recs[j].fd && tr[n].pm.recs[i].slot != tr[n].pm.recs[j].slot
  {
    RunKeeps(descs, tr, acts, n);
    var pm := tr[n].pm;
    forall fd | Watches(pm.recs, fd)
      ensures fd in pm.watched
    {
      var i :| 0 <= i < |pm.recs| && pm.recs[i].fd == fd;
      assert RecOk(descs, pm, pm.recs[i]);
    }
    forall i, j | 0 <= i < j < |pm.recs| && pm.recs[i].fd >= 0 && pm.recs[j].fd >= 0
      ensures pm.recs[i].fd != pm.recs[j].fd && pm.recs[i].slot != pm.recs[j].slot
    {
      assert Apart(pm.recs[i], pm.recs[j]);
    }
  }

  // ----- crashes -----

  /** An event on a watched descriptor is always somebody's end: the record loses its watch and the notice goes out. */
  lemma OutsideExitIsReported(descs: seq<Desc>, tr: seq<State>, acts: seq<Action>, n: nat, fd: int)
    requires Run(descs, tr, acts) && n < |tr| && fd in tr[n].pm.watched
    ensures exists k :: 0 <= k < |tr[n].pm.recs| && tr[n].pm.recs[k].fd == fd
                     && Next(descs, tr[n], PidfdFires(fd))
                     == Some(tr[n].(pm := tr[n].pm.(watched := tr[n].pm.watched - {fd},
                                                    recs := tr[n].pm.recs[k := tr[n].pm.recs[k].(fd := -1)]),
                                    notices := tr[n].notices
                                               + [CrashNotice(tr[n].pm.recs[k].slot, tr[n].pm.recs[k].pid)]))
  {
    RunKeeps(descs, tr, acts, n);
    var k := FindFd(tr[n].pm.recs, fd);
    assert Watches(tr[n].pm.recs, fd);
    assert k < |tr[n].pm.recs| && tr[n].pm.recs[k].fd == fd >= 0;
  }

  lemma NobodyElse(descs: seq<Desc>, s: State, k: nat)
    requires SupInv(descs, s) && k < |s.pm.recs|
    ensures forall i :: 0 <= i < |s.pm.recs| - 1 ==> Drop(s.pm.recs, k)[i].pid != s.pm.recs[k].pid
  {
    hide RecOk, Drop, Known, Children, Tokens;
    DropAt(s.pm.recs, k);
    forall i | 0 <= i < |s.pm.recs| - 1
      ensures Drop(s.pm.recs, k)[i].pid != s.pm.recs[k].pid
    {
      assert if i < k then Apart(s.pm.recs[i], s.pm.recs[k]) else Apart(s.pm.recs[k], s.pm.recs[i + 1]);
    }
  }

  /** Handling a crash leaves no record of the process; one with an executable has a new child or a retry timer. */
  lemma CrashIsRelaunched(descs: seq<Desc>, tr: seq<State>, acts: seq<Action>, n: nat)
    requires Run(descs, tr, acts) && n < |acts| && acts[n].PmTakes?
    requires tr[n].queue != [] && tr[n].queue[0].CrashReq?
    ensures var pid := tr[n].queue[0].pid;
            var k := FindPid(tr[n].pm.recs, pid);
            var pm := tr[n + 1].pm;
            && FindPid(pm.recs, pid) == |pm.recs|
            && (k < |tr[n].pm.recs| && tr[n].pm.recs[k].exe != "" ==>
                  var rec := tr[n].pm.recs[k];
                  if Allowed(tr[n].flags, rec.slot) && acts[n].forked.Some?
                  then |pm.recs| > 0 && pm.recs[|pm.recs| - 1] == Rec(rec.slot, rec.exe, acts[n].forked.value, -1)
                  else pm.timers == tr[n].pm.timers + multiset{Retry(rec.slot, rec.exe)})
  {
    RunKeeps(descs, tr, acts, n);
    assert StepAt(descs, tr, acts, n);
    var s, pid, pm := tr[n], tr[n].queue[0].pid, tr[n + 1].pm;
    var k := FindPid(s.pm.recs, pid);
    if k < |s.pm.recs| {
      UnwatchDrop(s.pm, k);
      NobodyElse(descs, s, k);
      if acts[n].forked.Some? {
        FreshIsUnheardOf(s, s.pm.recs[k].slot, acts[n].forked.value);
      }
      var r := Drop(s.pm.recs, k);
      assert pm.recs == r || (acts[n].forked.Some? && |pm.recs| == |r| + 1 && pm.recs[..|r|] == r
                              && pm.recs[|r|].pid == acts[n].forked.value);
      assert forall i :: 0 <= i < |r| ==> r[i].pid != pid;
      assert s.pm.recs[k].pid == pid;
    }
  }
}
