/**
 * The process supervisor: what the process manager does with its records, watches and timers, and the system around
 * it of two message queues, children and outside processes.
 */
module Supervisor {
  import opened Options

  const DAEMON_SLOT: nat := 0

  /** One line of the process table; an empty executable is never launched. */
  datatype Desc = Desc(exe: string, boot: bool, restart: bool)

  /** One record: `fd` is the pidfd of an outside process, -1 for a child of the daemon. */
  datatype Rec = Rec(slot: nat, exe: string, pid: nat, fd: int)

  datatype Retry = Retry(slot: nat, exe: string)

  /** History: one fork, with the sync flag as it was read. */
  datatype Fork = Fork(slot: nat, exe: string, pid: nat, done: bool, reported: bool)

  /** The process manager; `accepted` (slots with an accepted ONLINE) and `forks` are history. */
  datatype Pm = Pm(recs: seq<Rec>, watched: set<int>, timers: multiset<Retry>, accepted: set<nat>, forks: seq<Fork>)

  datatype PmMsg = CreateReq(slot: nat) | Online(slot: nat, pid: nat) | WaitExit(pid: nat) | CrashReq(pid: nat)

  datatype SmMsg = CrashNotice(slot: nat, pid: nat)

  function ShouldLaunchAtBoot(descs: seq<Desc>, slot: nat): bool {
    slot < |descs| && descs[slot].boot && descs[slot].exe != ""
  }

  function ShouldRelaunchAfterOnline(descs: seq<Desc>, slot: nat): bool {
    slot < |descs| && !descs[slot].boot && descs[slot].restart && descs[slot].exe != ""
  }

  function FindPid(recs: seq<Rec>, pid: nat): (k: nat)
    ensures k <= |recs|
    ensures k < |recs| ==> recs[k].pid == pid
    ensures forall j :: 0 <= j < k ==> recs[j].pid != pid
  {
    if recs == [] then 0 else if recs[0].pid == pid then 0 else 1 + FindPid(recs[1..], pid)
  }

  function FindFd(recs: seq<Rec>, fd: int): (k: nat)
    ensures k <= |recs|
    ensures k < |recs| ==> recs[k].fd == fd
    ensures forall j :: 0 <= j < k ==> recs[j].fd != fd
  {
    if recs == [] then 0 else if recs[0].fd == fd then 0 else 1 + FindFd(recs[1..], fd)
  }

  function Drop(recs: seq<Rec>, k: nat): seq<Rec>
    requires k < |recs|
  {
    recs[..k] + recs[k + 1..]
  }

  // ----- the handlers -----

  /** createProcess: fork if the slot is synchronised, try again in a second if not, or if the fork fails. */
  function Create(pm: Pm, slot: nat, exe: string, allowed: bool, forked: Option<nat>): Pm {
    if exe == "" then pm
    else if allowed && forked.Some? then
      pm.(recs := pm.recs + [Rec(slot, exe, forked.value, -1)],
          forks := pm.forks + [Fork(slot, exe, forked.value, allowed, slot in pm.accepted)])
    else pm.(timers := pm.timers + multiset{Retry(slot, exe)})
  }

  /** unwatchPidfd on record `k`. */
  function Unwatch(pm: Pm, k: nat): Pm
    requires k < |pm.recs|
  {
    if pm.recs[k].fd < 0 then pm
    else pm.(watched := pm.watched - {pm.recs[k].fd}, recs := pm.recs[k := pm.recs[k].(fd := -1)])
  }

  /** The loop of handleProcessOnline from index `i` on: the slot's records go, and their watches. */
  function Forget(pm: Pm, slot: nat, i: nat): (r: Pm)
    requires i <= |pm.recs|
    ensures r.timers == pm.timers && r.accepted == pm.accepted && r.forks == pm.forks
    decreases |pm.recs| - i
  {
    if i == |pm.recs| then pm
    else if pm.recs[i].slot != slot then Forget(pm, slot, i + 1)
    else
      var u := Unwatch(pm, i);
      Forget(u.(recs := Drop(u.recs, i)), slot, i)
  }

  predicate HasChild(recs: seq<Rec>, slot: nat) {
    exists i :: 0 <= i < |recs| && recs[i].slot == slot && recs[i].fd < 0
  }

  /** handleProcessOnline; `fd` is what pidfd_open and addFd came to. */
  function HandleOnline(descs: seq<Desc>, pm: Pm, slot: nat, pid: nat, fd: Option<int>): Pm {
    if slot == DAEMON_SLOT || slot >= |descs| || ShouldLaunchAtBoot(descs, slot) || HasChild(pm.recs, slot) then pm
    else
      var r := Forget(pm, slot, 0);
      if fd.None? then r
      else
        var exe := if ShouldRelaunchAfterOnline(descs, slot) then descs[slot].exe else "";
        r.(recs := r.recs + [Rec(slot, exe, pid, fd.value)], watched := r.watched + {fd.value},
           accepted := r.accepted + {slot})
  }

  /** onPidfd: the outside process is gone; its record stays until the crash message comes back. */
  function HandlePidfd(pm: Pm, fd: int): (Pm, Option<SmMsg>) {
    var k := FindFd(pm.recs, fd);
    if k == |pm.recs| then (pm, None) else (Unwatch(pm, k), Some(CrashNotice(pm.recs[k].slot, pm.recs[k].pid)))
  }

  /** What the waitpid loop hands over: only processes with a record are reported as crashed. */
  function HandleExit(pm: Pm, pid: nat): Option<SmMsg> {
    var k := FindPid(pm.recs, pid);
    if k == |pm.recs| then None else Some(CrashNotice(pm.recs[k].slot, pid))
  }

  /** isAllowCreateProcess. `flags` is empty as long as the sync memory is missing. */
  predicate Allowed(flags: seq<bool>, slot: nat) {
    slot < |flags| && flags[slot]
  }

  /** handleProcessCrash: the record goes and its executable, if it has one, is created again. */
  function HandleCrash(pm: Pm, pid: nat, flags: seq<bool>, forked: Option<nat>): Pm {
    var k := FindPid(pm.recs, pid);
    if k == |pm.recs| then pm
    else
      var rec := pm.recs[k];
      var u := Unwatch(pm, k);
      Create(u.(recs := Drop(u.recs, k)), rec.slot, rec.exe, Allowed(flags, rec.slot), forked)
  }

  // ----- the system -----

  /**
   * `alive` are the daemon's children, `owner` the slot each process id was given to: no process id is used twice.
   * `started` is history: the slots whose first launch was requested.
   */
  datatype State = State(
    pm: Pm, queue: seq<PmMsg>, notices: seq<SmMsg>, flags: seq<bool>,
    alive: set<nat>, owner: map<nat, nat>, started: set<nat>)

  datatype Action =
    | StartBoot(slot: nat)
    | PmTakes(forked: Option<nat>, fd: Option<int>)
    | TimerFires(retry: Retry, forked: Option<nat>)
    | PidfdFires(ready: int)
    | SmTakes
    | ChildExits(pid: nat)
    | Report(slot: nat, pid: nat)
    | SetFlags(flags: seq<bool>)

  const Init := State(Pm([], {}, multiset{}, {}, []), [], [], [], {}, map[], {})

  /** The fork came to a new process id. */
  predicate FreshPid(s: State, forked: Option<nat>) {
    forked.Some? ==> forked.value > 0 && forked.value !in s.owner
  }

  predicate FreshFd(s: State, fd: Option<int>) {
    fd.Some? ==> fd.value >= 0 && fd.value !in s.pm.watched
  }

  /** If the step forked, there is a new child. */
  function Born(s: State, pm: Pm): State {
    if |pm.forks| > |s.pm.forks| then
      var f := pm.forks[|pm.forks| - 1];
      s.(pm := pm, alive := s.alive + {f.pid}, owner := s.owner[f.pid := f.slot])
    else s.(pm := pm)
  }

  function PmStep(descs: seq<Desc>, s: State, forked: Option<nat>, fd: Option<int>): Option<State> {
    if s.queue == [] || !FreshPid(s, forked) || !FreshFd(s, fd) then None
    else
      var s1 := s.(queue := s.queue[1..]);
      match s.queue[0]
      case CreateReq(slot) =>
        if !ShouldLaunchAtBoot(descs, slot) then Some(s1)
        else Some(Born(s1, Create(s.pm, slot, descs[slot].exe, Allowed(s.flags, slot), forked)))
      case Online(slot, pid) => Some(s1.(pm := HandleOnline(descs, s.pm, slot, pid, fd)))
      case WaitExit(pid) =>
        var m := HandleExit(s.pm, pid);
        Some(if m.Some? then s1.(notices := s1.notices + [m.value]) else s1)
      case CrashReq(pid) => Some(Born(s1, HandleCrash(s.pm, pid, s.flags, forked)))
  }

  function Next(descs: seq<Desc>, s: State, a: Action): Option<State> {
    match a
    case StartBoot(slot) =>
      if slot == DAEMON_SLOT || slot in s.started then None
      else Some(s.(queue := s.queue + [CreateReq(slot)], started := s.started + {slot}))
    case PmTakes(forked, fd) => PmStep(descs, s, forked, fd)
    case TimerFires(retry, forked) =>
      if retry !in s.pm.timers || !FreshPid(s, forked) then None
      else
        var pm := s.pm.(timers := s.pm.timers - multiset{retry});
        Some(Born(s, Create(pm, retry.slot, retry.exe, Allowed(s.flags, retry.slot), forked)))
    case PidfdFires(fd) =>
      if fd !in s.pm.watched then None
      else
        var (pm, m) := HandlePidfd(s.pm, fd);
        Some(s.(pm := pm, notices := if m.Some? then s.notices + [m.value] else s.notices))
    case SmTakes =>
      if s.notices == [] then None
      else Some(s.(notices := s.notices[1..], queue := s.queue + [CrashReq(s.notices[0].pid)]))
    case ChildExits(pid) =>
      if pid !in s.alive then None else Some(s.(alive := s.alive - {pid}, queue := s.queue + [WaitExit(pid)]))
    case Report(slot, pid) =>
      if pid in s.owner && s.owner[pid] != slot then None
      else Some(s.(owner := s.owner[pid := slot], queue := s.queue + [Online(slot, pid)]))
    case SetFlags(flags) => Some(s.(flags := flags))
  }

  ghost predicate StepAt(descs: seq<Desc>, tr: seq<State>, acts: seq<Action>, n: nat)
    requires n < |acts| && n + 1 < |tr|
  {
    Next(descs, tr[n], acts[n]) == Some(tr[n + 1])
  }

  ghost predicate Run(descs: seq<Desc>, tr: seq<State>, acts: seq<Action>) {
    && |tr| == |acts| + 1
    && tr[0] == Init
    && forall n :: 0 <= n < |acts| ==> StepAt(descs, tr, acts, n)
  }
}
