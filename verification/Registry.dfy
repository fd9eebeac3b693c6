/**
 * The daemon's channel registry as values: who is attached to which channel, the channel's reader bits, and what the
 * three daemon handlers make of them.
 */
module Registry {
  import opened Options
  import opened Ring
  import opened PidNameInfos

  const RELEASE_FORCE: nat := 1
  const FIXED_NAMES: seq<string> := ["/ipc_daemon", "/ipc_process_1", "/ipc_process_2", "/ipc_process_3"]

  /** The part of a channel's shared memory that the registry and the senders' admission look at. */
  datatype Shm = Shm(mapped: bool, slotCount: nat, flag: set<nat>, heads: seq<nat>, tail: nat)

  datatype Reg = Reg(infos: seq<Info>, shms: map<string, Shm>)

  datatype Reply = NoReply | Reply(to: nat, index: Option<nat>)

  predicate Fixed(name: string) {
    name in FIXED_NAMES
  }

  function Get(shms: map<string, Shm>, name: string): Option<Shm> {
    if name in shms then Some(shms[name]) else None
  }

  function Put(shms: map<string, Shm>, name: string, shm: Option<Shm>): (r: map<string, Shm>)
    ensures Get(r, name) == shm
    ensures forall n :: n != name ==> Get(r, n) == Get(shms, n)
  {
    if shm.Some? then shms[name := shm.value] else shms - {name}
  }

  // ----- the ring's side -----

  /** Newly created shared memory; `mapped` is whether the creation succeeded. */
  function FreshShm(count: nat, mapped: bool): Shm {
    Shm(mapped, count, {}, seq(MAX_READER_COUNT, _ => 0), 0)
  }

  function FirstFree(flag: set<nat>, from: nat): (i: nat)
    requires from <= MAX_READER_COUNT
    ensures from <= i <= MAX_READER_COUNT && (i < MAX_READER_COUNT ==> i !in flag)
    ensures forall j :: from <= j < i ==> j in flag
    decreases MAX_READER_COUNT - from
  {
    if from == MAX_READER_COUNT || from !in flag then from else FirstFree(flag, from + 1)
  }

  /** alloc_reader_slot. */
  function AllocSlot(shm: Shm): (Shm, nat) {
    var i := FirstFree(shm.flag, 0);
    if !shm.mapped || i == MAX_READER_COUNT then (shm, NO_INDEX)
    else (shm.(flag := shm.flag + {i}, heads := if i < |shm.heads| then shm.heads[i := shm.tail] else shm.heads), i)
  }

  /** free_reader_slot and drop_reader. */
  function FreeSlot(shm: Shm, i: nat): Shm {
    if !shm.mapped || i >= MAX_READER_COUNT then shm else shm.(flag := shm.flag - {i})
  }

  function FreeSlotOf(shm: Option<Shm>, i: nat): Option<Shm> {
    if shm.Some? then Some(FreeSlot(shm.value, i)) else None
  }

  /** What a send of `need` slots finds: the test of send_impl on the registry's view of the ring. */
  ghost predicate Admits(shm: Shm, need: nat) {
    && shm.flag != {}
    && forall r :: r in shm.flag ==> r < |shm.heads| && Sub(Wrap32, shm.tail, shm.heads[r]) + need <= shm.slotCount - 1
  }

  // ----- the handlers -----

  function Find(infos: seq<Info>, name: string): (k: nat)
    ensures k <= |infos|
    ensures k < |infos| ==> infos[k].name == name
    ensures forall j :: 0 <= j < k ==> infos[j].name != name
  {
    if infos == [] then 0 else if infos[0].name == name then 0 else 1 + Find(infos[1..], name)
  }

  function Lookup(infos: seq<Info>, name: string): Option<Info> {
    var k := Find(infos, name);
    if k < |infos| then Some(infos[k]) else None
  }

  lemma {:induction false} FindAppended(infos: seq<Info>, name: string)
    requires Find(infos, name) == |infos|
    ensures Find(infos + [Info(name, [], [], [])], name) == |infos|
  {
    var all := infos + [Info(name, [], [], [])];
    var k := Find(all, name);
    assert all[|infos|].name == name;
  }

  /** A name the daemon has not heard of gets an entry and, if it can be created, shared memory. */
  function Registered(reg: Reg, name: string, count: nat, mapped: bool): (r: Reg)
    ensures Find(r.infos, name) < |r.infos|
  {
    if Find(reg.infos, name) < |reg.infos| then reg
    else
      var was := if name in reg.shms then reg.shms[name] else FreshShm(count, false);
      FindAppended(reg.infos, name);
      Reg(reg.infos + [Info(name, [], [], [])], reg.shms[name := if was.mapped then was else was.(mapped := mapped)])
  }

  /** A registered channel takes in a member: a sender as it is, a receiver with a reader slot of its own. */
  function AllocateAt(reg: Reg, k: nat, logic: nat, role: nat): (Reg, Reply)
    requires k < |reg.infos|
  {
    var info := reg.infos[k];
    if role != ROLE_RECEIVER then
      (reg.(infos := reg.infos[k := WithRole(info, logic, role, NO_INDEX)]), Reply(logic, None))
    else
      var index := IndexFor(info, logic);
      if index < MAX_READER_COUNT then (reg, Reply(logic, Some(index)))
      else if info.name !in reg.shms then (reg, NoReply)
      else
        var (shm, i) := AllocSlot(reg.shms[info.name]);
        if i == NO_INDEX then (reg, NoReply)
        else (Reg(reg.infos[k := WithRole(info, logic, role, i)], reg.shms[info.name := shm]), Reply(logic, Some(i)))
  }

  /** handleDaemon_AllocateShm on a parsed request. */
  function AllocateStep(reg: Reg, logic: nat, role: nat, name: string, count: nat, mapped: bool): (Reg, Reply) {
    var reg1 := Registered(reg, name, count, mapped);
    AllocateAt(reg1, Find(reg1.infos, name), logic, role)
  }

  /** handleDaemon_ReleaseShm on a parsed request; also the slots that are told, in order. */
  function ReleaseStep(reg: Reg, name: string, logic: nat, force: nat): (Reg, seq<nat>) {
    var k := Find(reg.infos, name);
    if k == |reg.infos| then (reg, [])
    else
      var info := WithoutMember(reg.infos[k], logic);
      var shms := Put(reg.shms, name, FreeSlotOf(Get(reg.shms, name), IndexFor(reg.infos[k], logic)));
      if force != RELEASE_FORCE && !info.Empty() then (Reg(reg.infos[k := info], shms), [logic])
      else (Reg(reg.infos[..k] + reg.infos[k + 1..], shms - {name}), [logic] + info.senders + info.receivers)
  }

  /** What is left of one entry when process `id` has crashed. */
  function InfoAfter(info: Info, id: nat): Option<Info> {
    if !info.Lists(id) || Fixed(info.name) then Some(info)
    else if WithoutMember(info, id).Empty() then None
    else Some(WithoutMember(info, id))
  }

  function ShmAfter(info: Info, shm: Option<Shm>, id: nat): Option<Shm> {
    if !info.Lists(id) then shm
    else if InfoAfter(info, id).None? then None
    else FreeSlotOf(shm, IndexFor(info, id))
  }

  /** handleProcessCrash, one entry after the other. */
  function CrashFrom(infos: seq<Info>, shms: map<string, Shm>, id: nat): Reg {
    if infos == [] then Reg([], shms)
    else
      var after := InfoAfter(infos[0], id);
      var rest := CrashFrom(infos[1..], Put(shms, infos[0].name, ShmAfter(infos[0], Get(shms, infos[0].name), id)), id);
      Reg((if after.Some? then [after.value] else []) + rest.infos, rest.shms)
  }

  function CrashStep(reg: Reg, id: nat): Reg {
    if id == INVALID_LOGIC then reg else CrashFrom(reg.infos, reg.shms, id)
  }

  // ----- the invariant -----

  ghost predicate NamesDistinct(infos: seq<Info>) {
    forall i, j :: 0 <= i < j < |infos| ==> infos[i].name != infos[j].name
  }

  /** The channel's reader indices are distinct, below 8, and exactly the set bits of m_reader_flag. */
  ghost predicate BitsAgree(info: Info, shm: Shm) {
    && Distinct(info.slots)
    && (forall i :: i in info.slots ==> i < MAX_READER_COUNT)
    && (forall i :: i in shm.flag <==> i in info.slots)
    && (!shm.mapped ==> shm.flag == {})
    && |shm.heads| == MAX_READER_COUNT
  }

  ghost predicate ChannelOk(info: Info, shms: map<string, Shm>) {
    InfoOk(info) && (!Fixed(info.name) ==> info.name in shms && BitsAgree(info, shms[info.name]))
  }

  ghost predicate RegInv(reg: Reg) {
    && NamesDistinct(reg.infos)
    && (forall k :: 0 <= k < |reg.infos| ==> ChannelOk(reg.infos[k], reg.shms))
    && (forall name :: name in reg.shms && !Fixed(name) ==> Find(reg.infos, name) < |reg.infos|)
  }

  /** No dynamic channel outlives its last member. */
  ghost predicate Inhabited(reg: Reg) {
    forall k :: 0 <= k < |reg.infos| && !Fixed(reg.infos[k].name) ==> !reg.infos[k].Empty()
  }
}
