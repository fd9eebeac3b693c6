/** Every step of the supervisor system keeps the invariant. */
module SupervisorSteps {
  import opened Options
  import opened Supervisor
  import opened SupervisorInv

  /** Records, timers and children stay; only the queues or the flags move. */
  lemma TokensStay(descs: seq<Desc>, s: State, s': State)
    requires Tokens(descs, s) && s'.pm.timers == s.pm.timers && s'.started == s.started
    requires forall b :: ShouldLaunchAtBoot(descs, b) ==> RecCount(s'.pm.recs, b) == RecCount(s.pm.recs, b)
    requires forall b :: ShouldLaunchAtBoot(descs, b) ==>
               multiset(s'.queue)[CreateReq(b)] == multiset(s.queue)[CreateReq(b)]
    ensures Tokens(descs, s')
  {
    forall b | ShouldLaunchAtBoot(descs, b)
      ensures TokenCount(descs, s', b) == if b in s'.started then 1 else 0
    {
      assert TokenCount(descs, s, b) == TokenCount(descs, s', b);
    }
  }

  lemma ChildrenStay(descs: seq<Desc>, s: State, s': State)
    requires Children(descs, s) && s'.pm.recs == s.pm.recs && s'.alive <= s.alive && s'.owner == s.owner
    requires forall slot, pid :: ShouldLaunchAtBoot(descs, slot) && InFlight(s, slot, pid) == 1 ==>
                  InFlight(s', slot, pid) == 1
    ensures Children(descs, s')
  {
  }

  lemma StartKeeps(descs: seq<Desc>, s: State, slot: nat)
    requires SupInv(descs, s) && slot !in s.started
    ensures SupInv(descs, s.(queue := s.queue + [CreateReq(slot)], started := s.started + {slot}))
  {
    hide PmInv;
    var s' := s.(queue := s.queue + [CreateReq(slot)], started := s.started + {slot});
    forall b | ShouldLaunchAtBoot(descs, b)
      ensures TokenCount(descs, s', b) == if b in s'.started then 1 else 0
    {
      assert TokenCount(descs, s, b) == if b in s.started then 1 else 0;
    }
    ChildrenStay(descs, s, s');
  }

  lemma SmKeeps(descs: seq<Desc>, s: State)
    requires SupInv(descs, s) && s.notices != []
    ensures SupInv(descs, s.(notices := s.notices[1..], queue := s.queue + [CrashReq(s.notices[0].pid)]))
  {
    hide PmInv;
    var s' := s.(notices := s.notices[1..], queue := s.queue + [CrashReq(s.notices[0].pid)]);
    TailCounts(s.notices);
    TokensStay(descs, s, s');
    forall i | 0 <= i < |s.pm.recs| && ShouldLaunchAtBoot(descs, s.pm.recs[i].slot)
      ensures InFlight(s', s.pm.recs[i].slot, s.pm.recs[i].pid) == 1
    {
      assert InFlight(s, s.pm.recs[i].slot, s.pm.recs[i].pid) == 1;
    }
  }

  lemma ExitKeeps(descs: seq<Desc>, s: State, pid: nat)
    requires SupInv(descs, s) && pid in s.alive
    ensures SupInv(descs, s.(alive := s.alive - {pid}, queue := s.queue + [WaitExit(pid)]))
  {
    hide PmInv;
    var s' := s.(alive := s.alive - {pid}, queue := s.queue + [WaitExit(pid)]);
    TokensStay(descs, s, s');
    forall i | 0 <= i < |s.pm.recs| && ShouldLaunchAtBoot(descs, s.pm.recs[i].slot)
      ensures InFlight(s', s.pm.recs[i].slot, s.pm.recs[i].pid) == 1
    {
      assert InFlight(s, s.pm.recs[i].slot, s.pm.recs[i].pid) == 1;
    }
  }

  lemma ReportKeeps(descs: seq<Desc>, s: State, slot: nat, pid: nat)
    requires SupInv(descs, s) && (pid in s.owner ==> s.owner[pid] == slot)
    ensures SupInv(descs, s.(owner := s.owner[pid := slot], queue := s.queue + [Online(slot, pid)]))
  {
    hide PmInv;
    var s' := s.(owner := s.owner[pid := slot], queue := s.queue + [Online(slot, pid)]);
    forall m | m in s'.queue
      ensures MsgKnown(s'.owner, m)
    {
      assert m in s.queue ==> MsgKnown(s.owner, m);
    }
    TokensStay(descs, s, s');
    forall i | 0 <= i < |s.pm.recs| && ShouldLaunchAtBoot(descs, s.pm.recs[i].slot)
      ensures InFlight(s', s.pm.recs[i].slot, s.pm.recs[i].pid) == 1
    {
      assert InFlight(s, s.pm.recs[i].slot, s.pm.recs[i].pid) == 1;
    }
  }

  /** A notice about an outside process says nothing about the boot slots' children. */
  lemma OutsideCrash(descs: seq<Desc>, s: State, s': State, k: nat)
    requires Known(s) && Children(descs, s) && k < |s.pm.recs| && !ShouldLaunchAtBoot(descs, s.pm.recs[k].slot)
    requires s' == s.(pm := s'.pm, notices := s.notices + [CrashNotice(s.pm.recs[k].slot, s.pm.recs[k].pid)])
    requires |s'.pm.recs| == |s.pm.recs|
    requires forall i :: 0 <= i < |s.pm.recs| ==>
                  s'.pm.recs[i].pid == s.pm.recs[i].pid && s'.pm.recs[i].slot == s.pm.recs[i].slot
    ensures Known(s') && Children(descs, s')
  {
    forall i | 0 <= i < |s.pm.recs| && ShouldLaunchAtBoot(descs, s.pm.recs[i].slot)
      ensures InFlight(s', s.pm.recs[i].slot, s.pm.recs[i].pid) == 1
    {
      assert InFlight(s, s.pm.recs[i].slot, s.pm.recs[i].pid) == 1;
    }
    forall pid | pid in s'.alive && pid in s'.owner && ShouldLaunchAtBoot(descs, s'.owner[pid])
      ensures FindPid(s'.pm.recs, pid) < |s'.pm.recs|
    {
      assert s'.pm.recs[FindPid(s.pm.recs, pid)].pid == pid;
    }
  }

  lemma PidfdKeeps(descs: seq<Desc>, s: State, fd: int)
    requires SupInv(descs, s) && fd in s.pm.watched
    ensures var (pm, m) := HandlePidfd(s.pm, fd);
            SupInv(descs, s.(pm := pm, notices := if m.Some? then s.notices + [m.value] else s.notices))
  {
    var k := FindFd(s.pm.recs, fd);
    assert Watches(s.pm.recs, fd);
    var (pm, m) := HandlePidfd(s.pm, fd);
    var s' := s.(pm := pm, notices := s.notices + [m.value]);
    UnwatchKeeps(descs, s.pm, k);
    assert RecOk(descs, s.pm, s.pm.recs[k]);
    hide PmInv;
    forall b
      ensures RecCount(pm.recs, b) == RecCount(s.pm.recs, b)
    {
      CountSame(pm.recs, s.pm.recs, b);
    }
    TokensStay(descs, s, s');
    OutsideCrash(descs, s, s', k);
  }

  lemma FewerTimers(descs: seq<Desc>, pm: Pm, timers: multiset<Retry>)
    requires PmInv(descs, pm) && timers <= pm.timers
    ensures PmInv(descs, pm.(timers := timers))
  {
    var r := pm.(timers := timers);
    forall i | 0 <= i < |r.recs|
      ensures RecOk(descs, r, r.recs[i])
    {
      assert RecOk(descs, pm, pm.recs[i]);
    }
  }

  lemma TimerKeeps(descs: seq<Desc>, s: State, retry: Retry, forked: Option<nat>)
    requires SupInv(descs, s) && retry in s.pm.timers && FreshPid(s, forked)
    ensures var pm := s.pm.(timers := s.pm.timers - multiset{retry});
            SupInv(descs, Born(s, Create(pm, retry.slot, retry.exe, Allowed(s.flags, retry.slot), forked)))
  {
    var s1 := s.(pm := s.pm.(timers := s.pm.timers - multiset{retry}));
    assert Licensed(descs, s.pm.accepted, retry.slot, retry.exe);
    FewerTimers(descs, s.pm, s1.pm.timers);
    forall b | ShouldLaunchAtBoot(descs, b)
      ensures TokenCount(descs, s1, b) + (if b == retry.slot then 1 else 0) == if b in s1.started then 1 else 0
    {
      assert TokenCount(descs, s, b) == if b in s.started then 1 else 0;
    }
    assert Known(s1);
    assert Children(descs, s1) by {
      ChildrenStay(descs, s, s1);
    }
    BornKeeps(descs, s1, retry.slot, retry.exe, Allowed(s.flags, retry.slot), forked);
    assert Born(s, Create(s1.pm, retry.slot, retry.exe, Allowed(s.flags, retry.slot), forked))
        == Born(s1, Create(s1.pm, retry.slot, retry.exe, Allowed(s.flags, retry.slot), forked));
  }

  // ----- the messages of the process manager's queue -----

  lemma TakenKnown(s: State)
    requires Known(s) && s.queue != []
    ensures Known(s.(queue := s.queue[1..])) && MsgKnown(s.owner, s.queue[0])
  {
    TailCounts(s.queue);
  }

  lemma CreateReqKeeps(descs: seq<Desc>, s: State, forked: Option<nat>)
    requires SupInv(descs, s) && s.queue != [] && s.queue[0].CreateReq? && FreshPid(s, forked)
    ensures SupInv(descs, PmStep(descs, s, forked, None).value)
  {
    var slot := s.queue[0].slot;
    var s1 := s.(queue := s.queue[1..]);
    TailCounts(s.queue);
    TakenKnown(s);
    assert Children(descs, s1) by {
      ChildrenStay(descs, s, s1);
    }
    forall b | ShouldLaunchAtBoot(descs, b)
      ensures TokenCount(descs, s1, b) + (if b == slot then 1 else 0) == if b in s1.started then 1 else 0
    {
      assert TokenCount(descs, s, b) == if b in s.started then 1 else 0;
    }
    hide PmInv;
    if ShouldLaunchAtBoot(descs, slot) {
      BornKeeps(descs, s1, slot, descs[slot].exe, Allowed(s.flags, slot), forked);
    }
  }

  lemma ExitNotice(s: State, pid: nat)
    requires Known(s)
    ensures var m := HandleExit(s.pm, pid);
            m.Some? ==> m.value.pid == pid && pid in s.owner && s.owner[pid] == m.value.slot
  {
  }

  lemma ExitReported(descs: seq<Desc>, s: State, s': State, pid: nat)
    requires Known(s) && Children(descs, s) && s.queue != [] && s.queue[0] == WaitExit(pid)
    requires var m := HandleExit(s.pm, pid);
             s' == s.(queue := s.queue[1..], notices := if m.Some? then s.notices + [m.value] else s.notices)
    ensures Children(descs, s')
  {
    TailCounts(s.queue);
    forall i | 0 <= i < |s.pm.recs| && ShouldLaunchAtBoot(descs, s.pm.recs[i].slot)
      ensures InFlight(s', s.pm.recs[i].slot, s.pm.recs[i].pid) == 1
    {
      var rec := s.pm.recs[i];
      assert InFlight(s, rec.slot, rec.pid) == 1;
      if rec.pid == pid {
        assert HandleExit(s.pm, pid) == Some(CrashNotice(rec.slot, pid));
      }
    }
  }

  lemma WaitExitKeeps(descs: seq<Desc>, s: State)
    requires SupInv(descs, s) && s.queue != [] && s.queue[0].WaitExit?
    ensures SupInv(descs, PmStep(descs, s, None, None).value)
  {
    hide PmInv, Children, HandleExit;
    var pid := s.queue[0].pid;
    var s' := PmStep(descs, s, None, None).value;
    TailCounts(s.queue);
    TakenKnown(s);
    ExitNotice(s, pid);
    TokensStay(descs, s, s');
    ExitReported(descs, s, s', pid);
  }

  /** Every record afterwards was there before, or is the new one; and those of other slots all stay. */
  ghost predicate RecsAfterOnline(descs: seq<Desc>, pm: Pm, r: Pm, slot: nat, pid: nat) {
    && r.timers == pm.timers
    && (forall i :: 0 <= i < |r.recs| ==>
          r.recs[i] in pm.recs || (r.recs[i].slot == slot && r.recs[i].pid == pid && !ShouldLaunchAtBoot(descs, slot)))
    && (forall i :: 0 <= i < |pm.recs| && (pm.recs[i].slot != slot || ShouldLaunchAtBoot(descs, slot)) ==>
                  pm.recs[i] in r.recs)
  }

  lemma OnlineRecs(descs: seq<Desc>, pm: Pm, slot: nat, pid: nat, fd: Option<int>)
    requires PmInv(descs, pm)
    ensures RecsAfterOnline(descs, pm, HandleOnline(descs, pm, slot, pid, fd), slot, pid)
  {
    hide PmInv;
    ForgetKeeps(descs, pm, slot, 0);
  }

  lemma OnlineChildren(descs: seq<Desc>, s: State, s': State, slot: nat, pid: nat)
    requires Known(s) && Children(descs, s) && pid in s.owner && s.owner[pid] == slot
    requires s.queue != [] && s.queue[0] == Online(slot, pid) && s' == s.(queue := s.queue[1..], pm := s'.pm)
    requires RecsAfterOnline(descs, s.pm, s'.pm, slot, pid)
    ensures Known(s') && Children(descs, s')
  {
    TailCounts(s.queue);
    forall i | 0 <= i < |s'.pm.recs|
      ensures s'.pm.recs[i].pid in s'.owner && s'.owner[s'.pm.recs[i].pid] == s'.pm.recs[i].slot
      ensures ShouldLaunchAtBoot(descs, s'.pm.recs[i].slot) ==> InFlight(s', s'.pm.recs[i].slot, s'.pm.recs[i].pid) == 1
    {
      var rec := s'.pm.recs[i];
      if rec in s.pm.recs {
        var j :| 0 <= j < |s.pm.recs| && s.pm.recs[j] == rec;
        assert ShouldLaunchAtBoot(descs, rec.slot) ==> InFlight(s, s.pm.recs[j].slot, s.pm.recs[j].pid) == 1;
      }
    }
    forall p | p in s'.alive && p in s'.owner && ShouldLaunchAtBoot(descs, s'.owner[p])
      ensures FindPid(s'.pm.recs, p) < |s'.pm.recs|
    {
      var j := FindPid(s.pm.recs, p);
      assert s.pm.recs[j] in s'.pm.recs;
      var i :| 0 <= i < |s'.pm.recs| && s'.pm.recs[i] == s.pm.recs[j];
      assert s'.pm.recs[i].pid == p;
    }
  }

  lemma OnlineMsgKeeps(descs: seq<Desc>, s: State, fd: Option<int>)
    requires SupInv(descs, s) && s.queue != [] && s.queue[0].Online? && FreshFd(s, fd)
    ensures SupInv(descs, PmStep(descs, s, None, fd).value)
  {
    hide PmInv, Forget;
    var slot, pid := s.queue[0].slot, s.queue[0].pid;
    var s' := PmStep(descs, s, None, fd).value;
    TailCounts(s.queue);
    TakenKnown(s);
    OnlineKeeps(descs, s.pm, slot, pid, fd);
    OnlineRecs(descs, s.pm, slot, pid, fd);
    TokensStay(descs, s, s');
    OnlineChildren(descs, s, s', slot, pid);
  }

  lemma CrashOfNobody(descs: seq<Desc>, s: State, s1: State, pid: nat)
    requires Children(descs, s) && s.queue != [] && s.queue[0] == CrashReq(pid) && s1 == s.(queue := s.queue[1..])
    requires FindPid(s.pm.recs, pid) == |s.pm.recs|
    ensures Children(descs, s1)
  {
    TailCounts(s.queue);
    forall i | 0 <= i < |s.pm.recs| && ShouldLaunchAtBoot(descs, s.pm.recs[i].slot)
      ensures InFlight(s1, s.pm.recs[i].slot, s.pm.recs[i].pid) == 1
    {
      assert InFlight(s, s.pm.recs[i].slot, s.pm.recs[i].pid) == 1;
    }
  }

  lemma OtherInFlight(descs: seq<Desc>, s: State, s2: State, k: nat, j: nat)
    requires PmInv(descs, s.pm) && Children(descs, s) && k < |s.pm.recs| && j < |s.pm.recs| && j != k
    requires s.queue != [] && s.queue[0] == CrashReq(s.pm.recs[k].pid)
    requires s2.queue == s.queue[1..] && s2.notices == s.notices && s2.alive == s.alive
    ensures var rec := s.pm.recs[j]; ShouldLaunchAtBoot(descs, rec.slot) ==> InFlight(s2, rec.slot, rec.pid) == 1
  {
    hide RecOk, ForkOk, Licensed;
    var rec := s.pm.recs[j];
    TailCounts(s.queue);
    if j < k {
      assert Apart(rec, s.pm.recs[k]);
    } else {
      assert Apart(s.pm.recs[k], rec);
    }
    if ShouldLaunchAtBoot(descs, rec.slot) {
      assert InFlight(s, rec.slot, rec.pid) == 1;
    }
  }

  lemma AliveStays(descs: seq<Desc>, s: State, k: nat, p: nat)
    requires Known(s) && Children(descs, s) && k < |s.pm.recs|
    requires s.queue != [] && s.queue[0] == CrashReq(s.pm.recs[k].pid)
    requires p in s.alive && p in s.owner && ShouldLaunchAtBoot(descs, s.owner[p])
    ensures var r := Drop(s.pm.recs, k); FindPid(r, p) < |r|
  {
    hide Drop;
    TailCounts(s.queue);
    DropAt(s.pm.recs, k);
    var j := FindPid(s.pm.recs, p);
    assert InFlight(s, s.pm.recs[j].slot, s.pm.recs[j].pid) == 1;
    var r := Drop(s.pm.recs, k);
    var i :| 0 <= i < |r| && r[i] == s.pm.recs[j];
  }

  /** The record whose crash is handled goes; its process was no longer alive if it was a boot slot's. */
  lemma RecordLeaves(descs: seq<Desc>, s: State, s2: State, k: nat)
    requires PmInv(descs, s.pm) && Known(s) && Children(descs, s) && k < |s.pm.recs|
    requires s.queue != [] && s.queue[0] == CrashReq(s.pm.recs[k].pid)
    requires s2 == s.(queue := s.queue[1..], pm := Gone(s.pm, k))
    ensures Known(s2) && Children(descs, s2)
  {
    hide Drop, RecOk, PmInv;
    TailCounts(s.queue);
    DropAt(s.pm.recs, k);
    forall i | 0 <= i < |s2.pm.recs|
      ensures s2.pm.recs[i].pid in s2.owner && s2.owner[s2.pm.recs[i].pid] == s2.pm.recs[i].slot
      ensures ShouldLaunchAtBoot(descs, s2.pm.recs[i].slot) ==> InFlight(s2, s2.pm.recs[i].slot, s2.pm.recs[i].pid) == 1
    {
      OtherInFlight(descs, s, s2, k, if i < k then i else i + 1);
    }
    forall p | p in s2.alive && p in s2.owner && ShouldLaunchAtBoot(descs, s2.owner[p])
      ensures FindPid(s2.pm.recs, p) < |s2.pm.recs|
    {
      AliveStays(descs, s, k, p);
    }
  }

  lemma RecLicensed(descs: seq<Desc>, pm: Pm, k: nat)
    requires PmInv(descs, pm) && k < |pm.recs|
    ensures pm.recs[k].exe == "" || Licensed(descs, pm.accepted, pm.recs[k].slot, pm.recs[k].exe)
    ensures ShouldLaunchAtBoot(descs, pm.recs[k].slot) ==> pm.recs[k].exe == descs[pm.recs[k].slot].exe
  {
    assert RecOk(descs, pm, pm.recs[k]);
  }

  lemma CrashReqKeeps(descs: seq<Desc>, s: State, forked: Option<nat>)
    requires SupInv(descs, s) && s.queue != [] && s.queue[0].CrashReq? && FreshPid(s, forked)
    ensures SupInv(descs, PmStep(descs, s, forked, None).value)
  {
    hide PmInv;
    var pid := s.queue[0].pid;
    var k := FindPid(s.pm.recs, pid);
    var s1 := s.(queue := s.queue[1..]);
    TailCounts(s.queue);
    TakenKnown(s);
    if k == |s.pm.recs| {
      TokensStay(descs, s, s1);
      CrashOfNobody(descs, s, s1, pid);
    } else {
      var rec := s.pm.recs[k];
      var s2 := s1.(pm := Gone(s.pm, k));
      UnwatchDrop(s.pm, k);
      GoneKeeps(descs, s.pm, k);
      DropAt(s.pm.recs, k);
      forall b | ShouldLaunchAtBoot(descs, b)
        ensures TokenCount(descs, s2, b) + (if b == rec.slot then 1 else 0) == if b in s2.started then 1 else 0
      {
        assert TokenCount(descs, s, b) == if b in s.started then 1 else 0;
        CountDrop(s.pm.recs, k, b);
      }
      RecordLeaves(descs, s, s2, k);
      RecLicensed(descs, s.pm, k);
      BornKeeps(descs, s2, rec.slot, rec.exe, Allowed(s.flags, rec.slot), forked);
      assert Born(s1, Create(s2.pm, rec.slot, rec.exe, Allowed(s.flags, rec.slot), forked))
          == Born(s2, Create(s2.pm, rec.slot, rec.exe, Allowed(s.flags, rec.slot), forked));
    }
  }

  lemma PmKeeps(descs: seq<Desc>, s: State, forked: Option<nat>, fd: Option<int>)
    requires SupInv(descs, s)
    ensures var r := PmStep(descs, s, forked, fd); r.Some? ==> SupInv(descs, r.value)
  {
    hide PmInv, Known, Children, Tokens, HandleOnline, HandleCrash, HandleExit, Create;
    var r := PmStep(descs, s, forked, fd);
    if r.Some? {
      match s.queue[0]
      case CreateReq(_) => CreateReqKeeps(descs, s, forked);
      case Online(_, _) => OnlineMsgKeeps(descs, s, fd);
      case WaitExit(_) => WaitExitKeeps(descs, s);
      case CrashReq(_) => CrashReqKeeps(descs, s, forked);
    }
  }

  lemma FlagsKeep(descs: seq<Desc>, s: State, flags: seq<bool>)
    requires SupInv(descs, s)
    ensures SupInv(descs, s.(flags := flags))
  {
    hide PmInv;
    TokensStay(descs, s, s.(flags := flags));
    ChildrenStay(descs, s, s.(flags := flags));
  }

  /** Whatever the step, the invariant survives it. */
  lemma NextKeeps(descs: seq<Desc>, s: State, a: Action)
    requires SupInv(descs, s)
    ensures var r := Next(descs, s, a); r.Some? ==> SupInv(descs, r.value)
  {
    hide PmInv, Known, Children, Tokens, HandleOnline, HandleCrash, HandleExit, HandlePidfd, Create;
    var r := Next(descs, s, a);
    if r.Some? {
      match a
      case StartBoot(slot) => StartKeeps(descs, s, slot);
      case PmTakes(forked, fd) => PmKeeps(descs, s, forked, fd);
      case TimerFires(retry, forked) => TimerKeeps(descs, s, retry, forked);
      case PidfdFires(fd) => PidfdKeeps(descs, s, fd);
      case SmTakes => SmKeeps(descs, s);
      case ChildExits(pid) => ExitKeeps(descs, s, pid);
      case Report(slot, pid) => ReportKeeps(descs, s, slot, pid);
      case SetFlags(flags) => FlagsKeep(descs, s, flags);
    }
  }

  lemma {:induction false} RunKeeps(descs: seq<Desc>, tr: seq<State>, acts: seq<Action>, n: nat)
    requires Run(descs, tr, acts) && n < |tr|
    ensures SupInv(descs, tr[n])
  {
    hide SupInv, Next;
    if n == 0 {
      InitOk(descs);
    } else {
      RunKeeps(descs, tr, acts, n - 1);
      assert StepAt(descs, tr, acts, n - 1);
      NextKeeps(descs, tr[n - 1], acts[n - 1]);
    }
  }
}
