/** The process manager's code: records pushed, erased and reset in place, specified by the supervisor's functions. */
module ProcessManager {
  import opened Options
  import opened Supervisor

  class ProcessManager {
    const descs: seq<Desc>
    var infos: seq<Rec>
    var watched: set<int>
    var timers: multiset<Retry>
    /** m_flags of the sync memory, empty while it is missing. */
    var flags: seq<bool>
    ghost var accepted: set<nat>
    ghost var forks: seq<Fork>

    ghost function View(): Pm
      reads this
    {
      Pm(infos, watched, timers, accepted, forks)
    }

    constructor (table: seq<Desc>)
      ensures descs == table && View() == Init.pm && flags == []
    {
      descs := table;
      infos, watched, timers, flags := [], {}, multiset{}, [];
      accepted, forks := {}, [];
    }

    /** `forked` is the process id that fork returned, None if it failed. */
    method CreateProcess(slot: nat, exe: string, forked: Option<nat>)
      modifies this
      ensures View() == Create(old(View()), slot, exe, Allowed(old(flags), slot), forked) && flags == old(flags)
    {
      if exe == "" {
        return;
      }
      if slot < |flags| && flags[slot] {
        if forked.Some? {
          infos := infos + [Rec(slot, exe, forked.value, -1)];
          forks := forks + [Fork(slot, exe, forked.value, true, slot in accepted)];
        } else {
          timers := timers + multiset{Retry(slot, exe)};
        }
      } else {
        timers := timers + multiset{Retry(slot, exe)};
      }
    }

    /** What postCreateProcess hands to its thread. */
    method BootProcess(slot: nat, forked: Option<nat>)
      modifies this
      ensures flags == old(flags)
      ensures View() == if ShouldLaunchAtBoot(descs, slot)
                        then Create(old(View()), slot, descs[slot].exe, Allowed(old(flags), slot), forked)
                        else old(View())
    {
      if slot >= |descs| || !ShouldLaunchAtBoot(descs, slot) {
        return;
      }
      CreateProcess(slot, descs[slot].exe, forked);
    }

    method UnwatchPidfd(k: nat)
      requires k < |infos|
      modifies this
      ensures View() == Unwatch(old(View()), k) && flags == old(flags)
    {
      if infos[k].fd < 0 {
        return;
      }
      watched := watched - {infos[k].fd};
      infos := infos[k := infos[k].(fd := -1)];
    }

    method OnPidfd(fd: int) returns (notice: Option<SmMsg>)
      modifies this
      ensures (View(), notice) == HandlePidfd(old(View()), fd) && flags == old(flags)
    {
      var k := 0;
      while k < |infos| && infos[k].fd != fd
        invariant k <= |infos| && View() == old(View()) && flags == old(flags)
        invariant forall j :: 0 <= j < k ==> infos[j].fd != fd
      {
        k := k + 1;
      }
      if k == |infos| {
        return None;
      }
      notice := Some(CrashNotice(infos[k].slot, infos[k].pid));
      UnwatchPidfd(k);
    }

    method FindProcess(pid: nat) returns (k: nat)
      ensures k == FindPid(infos, pid)
    {
      k := 0;
      while k < |infos| && infos[k].pid != pid
        invariant k <= |infos| && forall j :: 0 <= j < k ==> infos[j].pid != pid
      {
        k := k + 1;
      }
    }

    /** What the waitpid loop hands over: isNeedActivePullProcess, lookupLogicIdByPid, onProcessCrash. */
    method OnChildExit(pid: nat) returns (notice: Option<SmMsg>)
      ensures notice == HandleExit(View(), pid)
    {
      var k := FindProcess(pid);
      notice := if k == |infos| then None else Some(CrashNotice(infos[k].slot, pid));
    }

    /** `pidfd` is the new descriptor if pidfd_open and addFd succeed. */
    method HandleProcessOnline(slot: nat, pid: nat, pidfd: Option<int>)
      modifies this
      ensures View() == HandleOnline(descs, old(View()), slot, pid, pidfd) && flags == old(flags)
    {
      if slot == DAEMON_SLOT || slot >= |descs| || ShouldLaunchAtBoot(descs, slot) {
        return;
      }
      var i := 0;
      while i < |infos|
        invariant i <= |infos| && View() == old(View()) && flags == old(flags)
        invariant forall j :: 0 <= j < i ==> !(infos[j].slot == slot && infos[j].fd < 0)
      {
        if infos[i].slot == slot && infos[i].fd < 0 {
          return;
        }
        i := i + 1;
      }
      i := 0;
      while i < |infos|
        invariant i <= |infos| && Forget(View(), slot, i) == Forget(old(View()), slot, 0) && flags == old(flags)
        decreases |infos| - i
      {
        if infos[i].slot != slot {
          i := i + 1;
        } else {
          UnwatchPidfd(i);
          infos := infos[..i] + infos[i + 1..];
        }
      }
      if pidfd.None? {
        return;
      }
      watched := watched + {pidfd.value};
      var exe := if ShouldRelaunchAfterOnline(descs, slot) then descs[slot].exe else "";
      infos := infos + [Rec(slot, exe, pid, pidfd.value)];
      accepted := accepted + {slot};
    }

    method HandleProcessCrash(pid: nat, forked: Option<nat>)
      modifies this
      ensures View() == HandleCrash(old(View()), pid, old(flags), forked) && flags == old(flags)
    {
      var k := FindProcess(pid);
      if k == |infos| {
        return;
      }
      var rec := infos[k];
      UnwatchPidfd(k);
      infos := infos[..k] + infos[k + 1..];
      if rec.exe != "" {
        CreateProcess(rec.slot, rec.exe, forked);
      }
    }
  }
}
