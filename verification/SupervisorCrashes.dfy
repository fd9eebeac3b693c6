/**
 * Every process the supervisor knows of, not only the boot slots' children: what its record carries, and how the news
 * of its end gets to that record.
 */
module SupervisorCrashes {
  import opened Options
  import opened Supervisor
  import opened SupervisorInv
  import opened SupervisorSteps
  import opened SupervisorTheorems

  /** What a slot's record has to carry: the table's executable if the slot is launched at boot or after a crash. */
  ghost function Wanted(descs: seq<Desc>, slot: nat): string {
    if slot < |descs| && (descs[slot].boot || descs[slot].restart) then descs[slot].exe else ""
  }

  ghost predicate Carries(descs: seq<Desc>, recs: seq<Rec>) {
    forall i :: 0 <= i < |recs| ==> recs[i].slot < |descs| && recs[i].exe == Wanted(descs, recs[i].slot)
  }

  /** One, if the process has a record without a watch: then the news of its end has to come as a message. */
  ghost function Awaited(recs: seq<Rec>, pid: nat): nat {
    var k := FindPid(recs, pid);
    if k < |recs| && recs[k].fd < 0 then 1 else 0
  }

  /** The process is alive or one message about its end is on the way, exactly if that is awaited. */
  ghost predicate Flights(s: State) {
    forall pid :: pid in s.owner ==> InFlight(s, s.owner[pid], pid) == Awaited(s.pm.recs, pid)
  }

  ghost predicate CrashInv(descs: seq<Desc>, s: State) {
    SupInv(descs, s) && Carries(descs, s.pm.recs) && Flights(s)
  }

  // ----- records by process -----

  lemma FindUnique(descs: seq<Desc>, pm: Pm, i: nat)
    requires PmInv(descs, pm) && i < |pm.recs|
    ensures FindPid(pm.recs, pm.recs[i].pid) == i
  {
    hide RecOk, ForkOk, Licensed;
    assert forall j :: 0 <= j < i ==> Apart(pm.recs[j], pm.recs[i]);
  }

  lemma AwaitedAt(descs: seq<Desc>, pm: Pm, i: nat)
    requires PmInv(descs, pm) && i < |pm.recs|
    ensures Awaited(pm.recs, pm.recs[i].pid) == if pm.recs[i].fd < 0 then 1 else 0
  {
    FindUnique(descs, pm, i);
  }

  lemma AwaitedNowhere(recs: seq<Rec>, pid: nat)
    requires forall i :: 0 <= i < |recs| ==> recs[i].pid != pid
    ensures Awaited(recs, pid) == 0
  {
  }

  /** Records that are the same as far as process `pid` goes. */
  lemma AwaitedSame(descs: seq<Desc>, pm: Pm, pm': Pm, pid: nat)
    requires PmInv(descs, pm) && PmInv(descs, pm')
    requires forall r: Rec :: r.pid == pid ==> (r in pm.recs <==> r in pm'.recs)
    ensures Awaited(pm'.recs, pid) == Awaited(pm.recs, pid)
  {
    hide PmInv;
    if r: Rec :| r in pm.recs && r.pid == pid {
      var i :| 0 <= i < |pm.recs| && pm.recs[i] == r;
      var j :| 0 <= j < |pm'.recs| && pm'.recs[j] == r;
      AwaitedAt(descs, pm, i);
      AwaitedAt(descs, pm', j);
    } else {
      forall i | 0 <= i < |pm.recs|
        ensures pm.recs[i].pid != pid
      {
        assert pm.recs[i] in pm.recs;
      }
      forall i | 0 <= i < |pm'.recs|
        ensures pm'.recs[i].pid != pid
      {
        assert pm'.recs[i] in pm'.recs;
      }
      AwaitedNowhere(pm.recs, pid);
      AwaitedNowhere(pm'.recs, pid);
    }
  }

  // ----- the steps -----

  /** Messages move on, records stay. */
  lemma QueuesMove(s: State, s': State)
    requires Flights(s) && s'.pm.recs == s.pm.recs && s'.owner == s.owner
    requires forall pid :: pid in s.owner ==> InFlight(s', s.owner[pid], pid) == InFlight(s, s.owner[pid], pid)
    ensures Flights(s')
  {
  }

  lemma SmFlights(s: State)
    requires Known(s) && Flights(s) && s.notices != []
    ensures Flights(s.(notices := s.notices[1..], queue := s.queue + [CrashReq(s.notices[0].pid)]))
  {
    TailCounts(s.notices);
    QueuesMove(s, s.(notices := s.notices[1..], queue := s.queue + [CrashReq(s.notices[0].pid)]));
  }

  lemma ExitFlights(s: State, pid: nat)
    requires Flights(s) && pid in s.alive
    ensures Flights(s.(alive := s.alive - {pid}, queue := s.queue + [WaitExit(pid)]))
  {
    QueuesMove(s, s.(alive := s.alive - {pid}, queue := s.queue + [WaitExit(pid)]));
  }

  lemma ReportFlights(s: State, slot: nat, pid: nat)
    requires Known(s) && Flights(s) && (pid in s.owner ==> s.owner[pid] == slot)
    ensures Flights(s.(owner := s.owner[pid := slot], queue := s.queue + [Online(slot, pid)]))
  {
    var s' := s.(owner := s.owner[pid := slot], queue := s.queue + [Online(slot, pid)]);
    forall p | p in s'.owner
      ensures InFlight(s', s'.owner[p], p) == Awaited(s'.pm.recs, p)
    {
      assert InFlight(s', s'.owner[p], p) == InFlight(s, s'.owner[p], p);
      if p !in s.owner {
        FreshIsUnheardOf(s, slot, p);
        AwaitedNowhere(s.pm.recs, p);
      }
    }
  }

  lemma WatchedHasRecord(descs: seq<Desc>, s: State, fd: int)
    requires SupInv(descs, s) && fd in s.pm.watched
    ensures var k := FindFd(s.pm.recs, fd); k < |s.pm.recs| && s.pm.recs[k].fd == fd >= 0
    ensures var k := FindFd(s.pm.recs, fd);
            k < |s.pm.recs| ==> s.pm.recs[k].pid in s.owner && s.owner[s.pm.recs[k].pid] == s.pm.recs[k].slot
  {
    assert Watches(s.pm.recs, fd);
  }

  lemma OneRecordChanged(recs: seq<Rec>, k: nat, rec: Rec, p: nat)
    requires k < |recs| && recs[k].pid != p && rec.pid != p
    ensures forall r: Rec :: r.pid == p ==> (r in recs <==> r in recs[k := rec])
  {
    forall r: Rec | r.pid == p
      ensures r in recs <==> r in recs[k := rec]
    {
      if r in recs {
        var i :| 0 <= i < |recs| && recs[i] == r;
        assert recs[k := rec][i] == r;
      }
    }
  }

  /** A record loses its watch: from then on a message is awaited, and it is sent. */
  lemma PidfdRecords(descs: seq<Desc>, s: State, s': State, fd: int)
    requires SupInv(descs, s) && fd in s.pm.watched && Next(descs, s, PidfdFires(fd)) == Some(s')
    ensures var k := FindFd(s.pm.recs, fd);
            && k < |s.pm.recs| && s.pm.recs[k].fd == fd >= 0
            && s.pm.recs[k].pid in s.owner && s.owner[s.pm.recs[k].pid] == s.pm.recs[k].slot
            && s'.pm == s.pm.(watched := s.pm.watched - {fd}, recs := s.pm.recs[k := s.pm.recs[k].(fd := -1)])
            && s' == s.(pm := s'.pm, notices := s.notices + [CrashNotice(s.pm.recs[k].slot, s.pm.recs[k].pid)])
            && PmInv(descs, s'.pm)
  {
    hide PmInv, Tokens, Children, Known;
    WatchedHasRecord(descs, s, fd);
    UnwatchKeeps(descs, s.pm, FindFd(s.pm.recs, fd));
  }

  lemma OneMoreNotice(s: State, s': State, m: SmMsg)
    requires s' == s.(pm := s'.pm, notices := s.notices + [m])
    ensures forall slot, pid :: InFlight(s', slot, pid) ==
                                InFlight(s, slot, pid) + (if m == CrashNotice(slot, pid) then 1 else 0)
  {
  }

  lemma PidfdFlights(descs: seq<Desc>, s: State, s': State, fd: int)
    requires SupInv(descs, s) && Flights(s) && fd in s.pm.watched && Next(descs, s, PidfdFires(fd)) == Some(s')
    ensures Flights(s') && (Carries(descs, s.pm.recs) ==> Carries(descs, s'.pm.recs))
  {
    hide PmInv, Tokens, Children, Known, Next, FindFd, InFlight, Awaited;
    PidfdRecords(descs, s, s', fd);
    var k := FindFd(s.pm.recs, fd);
    var rec := s.pm.recs[k];
    OneMoreNotice(s, s', CrashNotice(rec.slot, rec.pid));
    AwaitedAt(descs, s.pm, k);
    AwaitedAt(descs, s'.pm, k);
    forall p | p in s'.owner && p != rec.pid
      ensures Awaited(s'.pm.recs, p) == Awaited(s.pm.recs, p)
    {
      OneRecordChanged(s.pm.recs, k, rec.(fd := -1), p);
      AwaitedSame(descs, s.pm, s'.pm, p);
    }
  }

  lemma {:induction false} AwaitedAppended(recs: seq<Rec>, rec: Rec)
    requires forall i :: 0 <= i < |recs| ==> recs[i].pid != rec.pid
    ensures Awaited(recs + [rec], rec.pid) == if rec.fd < 0 then 1 else 0
  {
    var all := recs + [rec];
    assert all[|recs|] == rec;
    assert forall i :: 0 <= i < |recs| ==> all[i] == recs[i];
  }

  lemma AwaitedBefore(recs: seq<Rec>, rec: Rec, p: nat)
    requires rec.pid != p
    ensures Awaited(recs + [rec], p) == Awaited(recs, p)
  {
    var all := recs + [rec];
    var j, k := FindPid(recs, p), FindPid(all, p);
    assert forall i :: 0 <= i < |recs| ==> all[i] == recs[i];
    if j < |recs| {
      assert all[j].pid == p;
    }
  }

  /** createProcess: a new child, alive and awaited, or a timer. */
  lemma BornFlights(descs: seq<Desc>, s: State, slot: nat, exe: string, allowed: bool, forked: Option<nat>)
    requires PmInv(descs, s.pm) && Known(s) && FreshPid(s, forked)
    requires Flights(s) && Carries(descs, s.pm.recs)
    requires exe == "" || Licensed(descs, s.pm.accepted, slot, exe)
    ensures var r := Born(s, Create(s.pm, slot, exe, allowed, forked)); Flights(r) && Carries(descs, r.pm.recs)
  {
    hide PmInv, Known;
    var pm := Create(s.pm, slot, exe, allowed, forked);
    var r := Born(s, pm);
    if exe != "" && allowed && forked.Some? {
      var pid := forked.value;
      FreshIsUnheardOf(s, slot, pid);
      forall p | p in r.owner
        ensures InFlight(r, r.owner[p], p) == Awaited(r.pm.recs, p)
      {
        if p == pid {
          AwaitedAppended(s.pm.recs, Rec(slot, exe, pid, -1));
        } else {
          assert InFlight(s, s.owner[p], p) == Awaited(s.pm.recs, p);
          AwaitedBefore(s.pm.recs, Rec(slot, exe, pid, -1), p);
        }
      }
    }
  }

  // ----- the messages -----

  lemma TakenFlights(descs: seq<Desc>, s: State)
    requires Flights(s) && s.queue != [] && (s.queue[0].CreateReq? || s.queue[0].Online?)
    ensures Flights(s.(queue := s.queue[1..]))
  {
    TailCounts(s.queue);
    QueuesMove(s, s.(queue := s.queue[1..]));
  }

  /** A message about the end of a process always finds that process's record, and it has no watch. */
  lemma MessageFinds(descs: seq<Desc>, s: State, pid: nat)
    requires SupInv(descs, s) && Flights(s)
    requires WaitExit(pid) in s.queue || CrashReq(pid) in s.queue || pid in s.alive
             || exists m :: m in s.notices && m.pid == pid
    ensures var k := FindPid(s.pm.recs, pid);
            && k < |s.pm.recs| && s.pm.recs[k].fd < 0 && pid in s.owner && s.owner[pid] == s.pm.recs[k].slot
            && InFlight(s, s.pm.recs[k].slot, pid) == 1
  {
    hide PmInv, Tokens, Children;
    if WaitExit(pid) in s.queue {
      assert MsgKnown(s.owner, WaitExit(pid));
    }
    if CrashReq(pid) in s.queue {
      assert MsgKnown(s.owner, CrashReq(pid));
    }
    if m :| m in s.notices && m.pid == pid {
      assert m == CrashNotice(s.owner[pid], pid);
    }
    assert InFlight(s, s.owner[pid], pid) > 0;
  }

  lemma ExitBecomesNotice(s: State, s': State, pid: nat)
    requires s.queue != [] && s.queue[0] == WaitExit(pid) && pid in s.owner
    requires s' == s.(queue := s.queue[1..], notices := s.notices + [CrashNotice(s.owner[pid], pid)])
    ensures forall p :: p in s.owner ==> InFlight(s', s.owner[p], p) == InFlight(s, s.owner[p], p)
  {
    TailCounts(s.queue);
  }

  lemma WaitExitFlights(descs: seq<Desc>, s: State)
    requires SupInv(descs, s) && Flights(s) && s.queue != [] && s.queue[0].WaitExit?
    ensures Flights(PmStep(descs, s, None, None).value)
  {
    hide PmInv, Tokens, Children, Known, InFlight, Awaited;
    var pid := s.queue[0].pid;
    assert WaitExit(pid) in s.queue;
    MessageFinds(descs, s, pid);
    var s' := PmStep(descs, s, None, None).value;
    ExitBecomesNotice(s, s', pid);
    QueuesMove(s, s');
  }

  lemma OthersInDrop(recs: seq<Rec>, k: nat, p: nat)
    requires k < |recs| && recs[k].pid != p
    ensures forall r: Rec :: r.pid == p ==> (r in recs <==> r in Drop(recs, k))
  {
    DropAt(recs, k);
  }

  /** The crashed process's record goes, and with it the news. */
  lemma GoneFlights(descs: seq<Desc>, s: State, k: nat)
    requires SupInv(descs, s) && Flights(s) && k < |s.pm.recs| && s.pm.recs[k].fd < 0
    requires s.queue != [] && s.queue[0] == CrashReq(s.pm.recs[k].pid)
    ensures Flights(s.(queue := s.queue[1..], pm := Gone(s.pm, k)))
  {
    hide PmInv, Tokens, Children;
    var rec := s.pm.recs[k];
    var s2 := s.(queue := s.queue[1..], pm := Gone(s.pm, k));
    TailCounts(s.queue);
    GoneKeeps(descs, s.pm, k);
    AwaitedAt(descs, s.pm, k);
    forall p | p in s2.owner
      ensures InFlight(s2, s2.owner[p], p) == Awaited(s2.pm.recs, p)
    {
      assert InFlight(s, s.owner[p], p) == Awaited(s.pm.recs, p);
      if p == rec.pid {
        NobodyElse(descs, s, k);
        AwaitedNowhere(s2.pm.recs, p);
      } else {
        OthersInDrop(s.pm.recs, k, p);
        AwaitedSame(descs, s.pm, s2.pm, p);
      }
    }
  }

  lemma GoneCarries(descs: seq<Desc>, pm: Pm, k: nat)
    requires k < |pm.recs| && Carries(descs, pm.recs)
    ensures Carries(descs, Gone(pm, k).recs)
  {
    DropAt(pm.recs, k);
  }

  lemma GoneAccepts(pm: Pm, k: nat)
    requires k < |pm.recs|
    ensures Gone(pm, k).accepted == pm.accepted
  {
  }

  lemma CrashReqStep(descs: seq<Desc>, s: State, forked: Option<nat>, k: nat)
    requires s.queue != [] && s.queue[0].CrashReq? && FreshPid(s, forked)
    requires k == FindPid(s.pm.recs, s.queue[0].pid) < |s.pm.recs|
    ensures var s2, rec := s.(queue := s.queue[1..], pm := Gone(s.pm, k)), s.pm.recs[k];
            PmStep(descs, s, forked, None)
            == Some(Born(s2, Create(s2.pm, rec.slot, rec.exe, Allowed(s.flags, rec.slot), forked)))
  {
    hide FindPid;
    UnwatchDrop(s.pm, k);
  }

  lemma CrashReqFlights(descs: seq<Desc>, s: State, forked: Option<nat>)
    requires CrashInv(descs, s) && s.queue != [] && s.queue[0].CrashReq? && FreshPid(s, forked)
    ensures var r := PmStep(descs, s, forked, None).value; Flights(r) && Carries(descs, r.pm.recs)
  {
    hide PmInv, Tokens, Children, Carries, Flights, InFlight, PmStep, Born, Create, Known, Gone, FindPid;
    var pid := s.queue[0].pid;
    assert CrashReq(pid) in s.queue;
    MessageFinds(descs, s, pid);
    var k := FindPid(s.pm.recs, pid);
    var rec := s.pm.recs[k];
    var s2 := s.(queue := s.queue[1..], pm := Gone(s.pm, k));
    CrashReqStep(descs, s, forked, k);
    GoneKeeps(descs, s.pm, k);
    GoneFlights(descs, s, k);
    RecordLeaves(descs, s, s2, k);
    RecLicensed(descs, s.pm, k);
    GoneCarries(descs, s.pm, k);
    GoneAccepts(s.pm, k);
    BornFlights(descs, s2, rec.slot, rec.exe, Allowed(s.flags, rec.slot), forked);
  }

  lemma CreateReqFlights(descs: seq<Desc>, s: State, forked: Option<nat>)
    requires CrashInv(descs, s) && s.queue != [] && s.queue[0].CreateReq? && FreshPid(s, forked)
    ensures var r := PmStep(descs, s, forked, None).value; Flights(r) && Carries(descs, r.pm.recs)
  {
    hide PmInv, Tokens, Children, Carries, Flights;
    var slot := s.queue[0].slot;
    TakenFlights(descs, s);
    TakenKnown(s);
    if ShouldLaunchAtBoot(descs, slot) {
      BornFlights(descs, s.(queue := s.queue[1..]), slot, descs[slot].exe, Allowed(s.flags, slot), forked);
    }
  }

  lemma TimerTaken(descs: seq<Desc>, s: State, retry: Retry)
    requires SupInv(descs, s) && retry in s.pm.timers
    ensures var pm := s.pm.(timers := s.pm.timers - multiset{retry});
            PmInv(descs, pm) && Known(s.(pm := pm)) && Licensed(descs, pm.accepted, retry.slot, retry.exe)
  {
    hide Tokens, Children;
    assert Licensed(descs, s.pm.accepted, retry.slot, retry.exe);
    FewerTimers(descs, s.pm, s.pm.timers - multiset{retry});
  }

  lemma TimerFlights(descs: seq<Desc>, s: State, retry: Retry, forked: Option<nat>)
    requires CrashInv(descs, s) && retry in s.pm.timers && FreshPid(s, forked)
    ensures var r := Next(descs, s, TimerFires(retry, forked)).value; Flights(r) && Carries(descs, r.pm.recs)
  {
    hide PmInv, Tokens, Children, Carries, Known, Licensed;
    var s1 := s.(pm := s.pm.(timers := s.pm.timers - multiset{retry}));
    TimerTaken(descs, s, retry);
    assert Flights(s1);
    BornFlights(descs, s1, retry.slot, retry.exe, Allowed(s.flags, retry.slot), forked);
    assert Born(s, Create(s1.pm, retry.slot, retry.exe, Allowed(s.flags, retry.slot), forked))
        == Born(s1, Create(s1.pm, retry.slot, retry.exe, Allowed(s.flags, retry.slot), forked));
  }

  // ----- reports -----

  /** Reports of the daemon itself, of boot slots, and of slots with a record that is not watched are ignored. */
  ghost predicate Ignored(descs: seq<Desc>, pm: Pm, slot: nat) {
    || slot == 0 || slot >= |descs| || (descs[slot].boot && descs[slot].exe != "")
    || exists i :: 0 <= i < |pm.recs| && pm.recs[i].slot == slot && pm.recs[i].fd < 0
  }

  /** What a report of process `pid` does, in terms of the process table. */
  ghost predicate Reported(descs: seq<Desc>, pm: Pm, r: Pm, slot: nat, pid: nat, fd: Option<int>) {
    if Ignored(descs, pm, slot) then r == pm
    else
      && r.timers == pm.timers && r.forks == pm.forks
      && (forall x: Rec :: x.slot != slot ==> (x in r.recs <==> x in pm.recs))
      && (forall x: Rec :: x.slot == slot ==>
            (x in r.recs <==> fd.Some? && x == Rec(slot, Wanted(descs, slot), pid, fd.value)))
      && (fd.Some? ==> fd.value in r.watched)
      && r.accepted == if fd.Some? then pm.accepted + {slot} else pm.accepted
  }

  lemma ReportIsAccepted(descs: seq<Desc>, pm: Pm, slot: nat, pid: nat, fd: Option<int>)
    requires PmInv(descs, pm)
    ensures Reported(descs, pm, HandleOnline(descs, pm, slot, pid, fd), slot, pid, fd)
  {
    hide PmInv, Forget;
    ForgetKeeps(descs, pm, slot, 0);
  }

  lemma WatchedIsNotAwaited(recs: seq<Rec>, p: nat)
    requires forall i :: 0 <= i < |recs| && recs[i].pid == p ==> recs[i].fd >= 0
    ensures Awaited(recs, p) == 0
  {
  }

  lemma OthersKeepRecords(descs: seq<Desc>, s: State, r: Pm, slot: nat, pid: nat, fd: Option<int>, p: nat)
    requires Known(s) && Reported(descs, s.pm, r, slot, pid, fd) && p in s.owner && s.owner[p] != slot
    requires pid in s.owner && s.owner[pid] == slot
    ensures forall x: Rec :: x.pid == p ==> (x in s.pm.recs <==> x in r.recs)
  {
    hide Ignored, Wanted;
    forall x: Rec | x.pid == p
      ensures x in s.pm.recs <==> x in r.recs
    {
      if x in s.pm.recs {
        var i :| 0 <= i < |s.pm.recs| && s.pm.recs[i] == x;
      }
    }
  }

  lemma NobodyAwaited(descs: seq<Desc>, s: State, r: Pm, slot: nat, pid: nat, fd: Option<int>, p: nat)
    requires Known(s) && Reported(descs, s.pm, r, slot, pid, fd) && !Ignored(descs, s.pm, slot)
    requires FreshFd(s, fd) && p in s.owner && s.owner[p] == slot
    ensures Awaited(s.pm.recs, p) == 0 == Awaited(r.recs, p)
  {
    hide Wanted;
    WatchedIsNotAwaited(s.pm.recs, p);
    forall i | 0 <= i < |r.recs| && r.recs[i].pid == p
      ensures r.recs[i].fd >= 0
    {
      assert r.recs[i] in r.recs;
    }
    WatchedIsNotAwaited(r.recs, p);
  }

  lemma InFlightIgnoresOnline(s: State, s': State)
    requires s.queue != [] && s.queue[0].Online? && s' == s.(queue := s.queue[1..], pm := s'.pm)
    ensures forall slot, pid :: InFlight(s', slot, pid) == InFlight(s, slot, pid)
  {
    TailCounts(s.queue);
  }

  lemma NewCarries(descs: seq<Desc>, pm: Pm, r: Pm, slot: nat, pid: nat, fd: Option<int>)
    requires Carries(descs, pm.recs) && Reported(descs, pm, r, slot, pid, fd) && !Ignored(descs, pm, slot)
    ensures Carries(descs, r.recs)
  {
    hide Wanted;
    forall i | 0 <= i < |r.recs|
      ensures r.recs[i].slot < |descs| && r.recs[i].exe == Wanted(descs, r.recs[i].slot)
    {
      assert r.recs[i] in r.recs;
    }
  }

  /** The slot's records were all watched, and the new one is. */
  lemma NewRecords(descs: seq<Desc>, s: State, s': State, slot: nat, pid: nat, fd: Option<int>)
    requires CrashInv(descs, s) && s.queue != [] && s.queue[0] == Online(slot, pid) && FreshFd(s, fd)
    requires s' == s.(queue := s.queue[1..], pm := HandleOnline(descs, s.pm, slot, pid, fd))
    requires !Ignored(descs, s.pm, slot) && Reported(descs, s.pm, s'.pm, slot, pid, fd)
    ensures Flights(s') && Carries(descs, s'.pm.recs)
  {
    hide PmInv, Tokens, Children, HandleOnline, ShouldLaunchAtBoot, Carries, Awaited, InFlight;
    InFlightIgnoresOnline(s, s');
    TakenKnown(s);
    TailCounts(s.queue);
    assert forall i :: 0 <= i < |s.pm.recs| && s.pm.recs[i].pid == pid ==> s.pm.recs[i].slot == slot;
    OnlineKeeps(descs, s.pm, slot, pid, fd);
    forall p | p in s'.owner
      ensures InFlight(s', s'.owner[p], p) == Awaited(s'.pm.recs, p)
    {
      assert InFlight(s, s.owner[p], p) == Awaited(s.pm.recs, p);
      if s.owner[p] != slot {
        OthersKeepRecords(descs, s, s'.pm, slot, pid, fd, p);
        AwaitedSame(descs, s.pm, s'.pm, p);
      } else {
        NobodyAwaited(descs, s, s'.pm, slot, pid, fd, p);
      }
    }
    NewCarries(descs, s.pm, s'.pm, slot, pid, fd);
  }

  lemma OnlineFlights(descs: seq<Desc>, s: State, fd: Option<int>)
    requires CrashInv(descs, s) && s.queue != [] && s.queue[0].Online? && FreshFd(s, fd)
    ensures var r := PmStep(descs, s, None, fd).value; Flights(r) && Carries(descs, r.pm.recs)
  {
    hide PmInv, Tokens, Children, HandleOnline;
    var slot, pid := s.queue[0].slot, s.queue[0].pid;
    var s' := PmStep(descs, s, None, fd).value;
    TakenFlights(descs, s);
    TakenKnown(s);
    ReportIsAccepted(descs, s.pm, slot, pid, fd);
    if !Ignored(descs, s.pm, slot) {
      NewRecords(descs, s, s', slot, pid, fd);
    }
  }

  // ----- every step, every run -----

  lemma PmFlights(descs: seq<Desc>, s: State, forked: Option<nat>, fd: Option<int>)
    requires CrashInv(descs, s)
    ensures var r := PmStep(descs, s, forked, fd); r.Some? ==> Flights(r.value) && Carries(descs, r.value.pm.recs)
  {
    hide SupInv, Flights, Carries, HandleOnline, HandleCrash, HandleExit, Create;
    var r := PmStep(descs, s, forked, fd);
    if r.Some? {
      match s.queue[0]
      case CreateReq(_) => CreateReqFlights(descs, s, forked);
      case Online(_, _) => OnlineFlights(descs, s, fd);
      case WaitExit(_) => WaitExitFlights(descs, s);
      case CrashReq(_) => CrashReqFlights(descs, s, forked);
    }
  }

  lemma StartFlights(s: State, slot: nat)
    requires Flights(s)
    ensures Flights(s.(queue := s.queue + [CreateReq(slot)], started := s.started + {slot}))
  {
    QueuesMove(s, s.(queue := s.queue + [CreateReq(slot)], started := s.started + {slot}));
  }

  lemma FlagsFlights(s: State, flags: seq<bool>)
    requires Flights(s)
    ensures Flights(s.(flags := flags))
  {
    QueuesMove(s, s.(flags := flags));
  }

  lemma CrashNext(descs: seq<Desc>, s: State, a: Action)
    requires CrashInv(descs, s)
    ensures var r := Next(descs, s, a); r.Some? ==> CrashInv(descs, r.value)
  {
    hide PmInv, Tokens, Children, Flights, Carries, PmStep, Known, Create, Born, HandlePidfd;
    NextKeeps(descs, s, a);
    var r := Next(descs, s, a);
    if r.Some? {
      match a
      case StartBoot(slot) => StartFlights(s, slot);
      case PmTakes(forked, fd) => PmFlights(descs, s, forked, fd);
      case TimerFires(retry, forked) => TimerFlights(descs, s, retry, forked);
      case PidfdFires(fd) => PidfdFlights(descs, s, r.value, fd);
      case SmTakes => SmFlights(s);
      case ChildExits(pid) => ExitFlights(s, pid);
      case Report(slot, pid) => ReportFlights(s, slot, pid);
      case SetFlags(flags) => FlagsFlights(s, flags);
    }
  }

  lemma InitCrash(descs: seq<Desc>)
    ensures CrashInv(descs, Init)
  {
    InitOk(descs);
  }

  lemma {:induction false} RunCrashes(descs: seq<Desc>, tr: seq<State>, acts: seq<Action>, n: nat)
    requires Run(descs, tr, acts) && n < |tr|
    ensures CrashInv(descs, tr[n])
  {
    hide CrashInv, Next;
    if n == 0 {
      InitCrash(descs);
    } else {
      RunCrashes(descs, tr, acts, n - 1);
      assert StepAt(descs, tr, acts, n - 1);
      CrashNext(descs, tr[n - 1], acts[n - 1]);
    }
  }

  // ----- what is promised -----

  /**
   * Every record, of whatever slot: either its pidfd is watched and no message about its end is under way, or its
   * process lives as a child, or exactly one such message is on its way.
   */
  lemma NoRecordForgotten(descs: seq<Desc>, tr: seq<State>, acts: seq<Action>, n: nat, i: nat)
    requires Run(descs, tr, acts) && n < |tr| && i < |tr[n].pm.recs|
    ensures var rec := tr[n].pm.recs[i];
            if rec.fd >= 0 then rec.fd in tr[n].pm.watched && InFlight(tr[n], rec.slot, rec.pid) == 0
            else InFlight(tr[n], rec.slot, rec.pid) == 1
  {
    hide Tokens, Children;
    RunCrashes(descs, tr, acts, n);
    var pm := tr[n].pm;
    assert RecOk(descs, pm, pm.recs[i]);
    AwaitedAt(descs, pm, i);
  }

  /** The other way round: whoever lives or is reported dead has a record, so no news of an end is ever dropped. */
  lemma NewsFindsItsRecord(descs: seq<Desc>, tr: seq<State>, acts: seq<Action>, n: nat, pid: nat)
    requires Run(descs, tr, acts) && n < |tr|
    requires WaitExit(pid) in tr[n].queue || CrashReq(pid) in tr[n].queue || pid in tr[n].alive
             || exists m :: m in tr[n].notices && m.pid == pid
    ensures var k := FindPid(tr[n].pm.recs, pid);
            && k < |tr[n].pm.recs| && tr[n].pm.recs[k].fd < 0
            && InFlight(tr[n], tr[n].pm.recs[k].slot, pid) == 1
  {
    hide SupInv, Flights, InFlight;
    RunCrashes(descs, tr, acts, n);
    MessageFinds(descs, tr[n], pid);
  }

  /** Every record carries what the process table says of its slot. */
  lemma RecordsCarryTheTable(descs: seq<Desc>, tr: seq<State>, acts: seq<Action>, n: nat, i: nat)
    requires Run(descs, tr, acts) && n < |tr| && i < |tr[n].pm.recs|
    ensures var rec := tr[n].pm.recs[i];
            && rec.slot < |descs|
            && rec.exe == if descs[rec.slot].boot || descs[rec.slot].restart then descs[rec.slot].exe else ""
  {
    hide SupInv, Flights;
    RunCrashes(descs, tr, acts, n);
  }

  /** A launch: a child if the slot's flag is set and the fork succeeds, one more retry timer if not. */
  ghost predicate Launched(pm: Pm, r: Pm, flags: seq<bool>, slot: nat, exe: string, forked: Option<nat>) {
    && r.watched == pm.watched && r.accepted == pm.accepted
    && if slot < |flags| && flags[slot] && forked.Some? then
         r.recs == pm.recs + [Rec(slot, exe, forked.value, -1)] && r.timers == pm.timers && |r.forks| == |pm.forks| + 1
       else r.recs == pm.recs && r.timers == pm.timers + multiset{Retry(slot, exe)} && r.forks == pm.forks
  }

  lemma CreateLaunches(pm: Pm, flags: seq<bool>, slot: nat, exe: string, forked: Option<nat>)
    requires exe != ""
    ensures Launched(pm, Create(pm, slot, exe, Allowed(flags, slot), forked), flags, slot, exe, forked)
  {
  }

  /** A create request launches a boot slot with an executable and nothing else, a timer what it was set for. */
  lemma LaunchIsTried(descs: seq<Desc>, s: State, a: Action)
    requires Next(descs, s, a).Some?
    ensures var r := Next(descs, s, a).value;
            && (a.PmTakes? && s.queue[0].CreateReq? ==>
                  var slot := s.queue[0].slot;
                  if slot < |descs| && descs[slot].boot && descs[slot].exe != ""
                  then Launched(s.pm, r.pm, s.flags, slot, descs[slot].exe, a.forked) else r.pm == s.pm)
            && (a.TimerFires? && a.retry.exe != "" ==>
                  Launched(s.pm.(timers := s.pm.timers - multiset{a.retry}), r.pm, s.flags, a.retry.slot, a.retry.exe,
                           a.forked))
  {
    hide HandleOnline, HandleCrash, HandleExit, HandlePidfd, Launched, Create;
    match a
    case PmTakes(forked, _) =>
      if s.queue[0].CreateReq? && ShouldLaunchAtBoot(descs, s.queue[0].slot) {
        CreateLaunches(s.pm, s.flags, s.queue[0].slot, descs[s.queue[0].slot].exe, forked);
      }
    case TimerFires(retry, forked) =>
      if retry.exe != "" {
        CreateLaunches(s.pm.(timers := s.pm.timers - multiset{retry}), s.flags, retry.slot, retry.exe, forked);
      }
    case _ =>
  }

  /**
   * A crash that is handled takes the record of its process, and no other, and relaunches the slot if the table says
   * so; in terms of the table and the flags, for every slot.
   */
  lemma CrashRelaunchesByTheTable(descs: seq<Desc>, tr: seq<State>, acts: seq<Action>, n: nat)
    requires Run(descs, tr, acts) && n < |acts| && acts[n].PmTakes?
    requires tr[n].queue != [] && tr[n].queue[0].CrashReq?
    ensures var pm, r := tr[n].pm, tr[n + 1].pm;
            var k := FindPid(pm.recs, tr[n].queue[0].pid);
            && k < |pm.recs|
            && var slot := pm.recs[k].slot;
               var left := pm.(recs := Drop(pm.recs, k));
               && slot < |descs|
               && if (descs[slot].boot || descs[slot].restart) && descs[slot].exe != ""
                  then Launched(left, r, tr[n].flags, slot, descs[slot].exe, acts[n].forked) else r == left
  {
    hide SupInv, Flights, Drop;
    RunCrashes(descs, tr, acts, n);
    assert StepAt(descs, tr, acts, n);
    var s, pid := tr[n], tr[n].queue[0].pid;
    assert CrashReq(pid) in s.queue;
    MessageFinds(descs, s, pid);
    UnwatchDrop(s.pm, FindPid(s.pm.recs, pid));
  }
}
