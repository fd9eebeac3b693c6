/** What every handler keeps of the registry, and what exactly each of them changes. */
module RegistryTheorems {
  import opened Options
  import opened Ring
  import opened PidNameInfos
  import opened Registry

  // ----- finding entries -----

  lemma FindIs(infos: seq<Info>, k: nat)
    requires NamesDistinct(infos) && k < |infos|
    ensures Find(infos, infos[k].name) == k
  {
  }

  lemma FindSome(infos: seq<Info>, name: string, k: nat)
    requires k < |infos| && infos[k].name == name
    ensures Find(infos, name) <= k
  {
  }

  lemma {:induction false} SameFind(a: seq<Info>, b: seq<Info>, name: string)
    requires |a| == |b| && forall j :: 0 <= j < |a| ==> a[j].name == b[j].name
    ensures Find(a, name) == Find(b, name)
  {
    if a != [] {
      SameFind(a[1..], b[1..], name);
    }
  }

  /** Entry `k` is replaced by one for the same channel, whose shared memory may change with it. */
  lemma ReplaceKeeps(reg: Reg, k: nat, info: Info, shms: map<string, Shm>)
    requires RegInv(reg) && k < |reg.infos| && info.name == reg.infos[k].name
    requires ChannelOk(info, shms)
    requires forall n :: n != info.name ==> Get(shms, n) == Get(reg.shms, n)
    ensures RegInv(Reg(reg.infos[k := info], shms))
    ensures forall n :: n != info.name ==> Lookup(reg.infos[k := info], n) == Lookup(reg.infos, n)
    ensures Lookup(reg.infos[k := info], info.name) == Some(info)
  {
    hide InfoOk, BitsAgree;
    var infos := reg.infos[k := info];
    forall j | 0 <= j < |infos|
      ensures ChannelOk(infos[j], shms)
    {
      if j != k {
        assert ChannelOk(reg.infos[j], reg.shms);
        assert Get(shms, infos[j].name) == Get(reg.shms, infos[j].name);
      }
    }
    forall n
      ensures Find(infos, n) == Find(reg.infos, n)
    {
      SameFind(reg.infos, infos, n);
    }
    forall n | n in shms && !Fixed(n)
      ensures Find(infos, n) < |infos|
    {
      if n != info.name {
        assert Get(shms, n) == Get(reg.shms, n);
      } else {
        FindSome(reg.infos, n, k);
      }
    }
    FindIs(reg.infos, k);
  }

  lemma LookupFront(first: Info, rest: seq<Info>, name: string)
    ensures Lookup([first] + rest, name) == if first.name == name then Some(first) else Lookup(rest, name)
  {
    assert ([first] + rest)[1..] == rest;
  }

  lemma {:induction false} RemoveFind(infos: seq<Info>, k: nat, n: string)
    requires k < |infos| && n != infos[k].name
    ensures Lookup(infos[..k] + infos[k + 1..], n) == Lookup(infos, n)
  {
    hide Lookup;
    var tail := infos[1..];
    assert infos == [infos[0]] + tail;
    LookupFront(infos[0], tail, n);
    if k == 0 {
      assert infos[..k] + infos[k + 1..] == tail;
    } else {
      assert infos[..k] + infos[k + 1..] == [infos[0]] + (tail[..k - 1] + tail[k..]);
      RemoveFind(tail, k - 1, n);
      LookupFront(infos[0], tail[..k - 1] + tail[k..], n);
    }
  }

  /** Entry `k` goes, and its shared memory with it. */
  lemma RemoveKeepsReg(reg: Reg, k: nat)
    requires RegInv(reg) && k < |reg.infos|
    ensures var r := Reg(reg.infos[..k] + reg.infos[k + 1..], reg.shms - {reg.infos[k].name});
            && RegInv(r) && Lookup(r.infos, reg.infos[k].name) == None
            && forall n :: n != reg.infos[k].name ==>
                          Lookup(r.infos, n) == Lookup(reg.infos, n) && Get(r.shms, n) == Get(reg.shms, n)
  {
    hide InfoOk, BitsAgree;
    var name := reg.infos[k].name;
    var infos := reg.infos[..k] + reg.infos[k + 1..];
    var shms := reg.shms - {name};
    assert forall j :: 0 <= j < |infos| ==> infos[j] == reg.infos[if j < k then j else j + 1];
    forall j | 0 <= j < |infos|
      ensures ChannelOk(infos[j], shms) && infos[j].name != name
    {
      assert ChannelOk(reg.infos[if j < k then j else j + 1], reg.shms);
    }
    forall n | n != name
      ensures Lookup(infos, n) == Lookup(reg.infos, n)
    {
      RemoveFind(reg.infos, k, n);
    }
    forall n | n in shms && !Fixed(n)
      ensures Find(infos, n) < |infos|
    {
      assert Lookup(infos, n) == Lookup(reg.infos, n);
    }
  }

  // ----- ALLOCATE -----

  lemma AppendedChannels(reg: Reg, r: Reg, name: string, count: nat, mapped: bool)
    requires RegInv(reg) && Find(reg.infos, name) == |reg.infos| && r == Registered(reg, name, count, mapped)
    ensures forall j :: 0 <= j < |r.infos| ==> ChannelOk(r.infos[j], r.shms)
    ensures !Fixed(name) ==> name !in reg.shms
  {
    forall j | 0 <= j < |r.infos|
      ensures ChannelOk(r.infos[j], r.shms)
    {
      if j < |reg.infos| {
        assert ChannelOk(reg.infos[j], reg.shms);
      }
    }
  }

  lemma AppendFind(infos: seq<Info>, last: Info, n: string)
    requires n != last.name
    ensures Lookup(infos + [last], n) == Lookup(infos, n)
    ensures Find(infos, n) < |infos| ==> Find(infos + [last], n) < |infos|
  {
    var all := infos + [last];
    var i, j := Find(infos, n), Find(all, n);
    if i < |infos| {
      FindSome(all, n, i);
      assert all[i] == infos[i];
    }
    if j < |infos| {
      FindSome(infos, n, j);
      assert all[j] == infos[j];
    }
  }

  lemma RegisteredKeeps(reg: Reg, name: string, count: nat, mapped: bool)
    requires RegInv(reg)
    ensures var r := Registered(reg, name, count, mapped);
            && RegInv(r)
            && (forall n :: n != name ==>
                          Lookup(r.infos, n) == Lookup(reg.infos, n) && Get(r.shms, n) == Get(reg.shms, n))
            && (Lookup(reg.infos, name).Some? ==> r == reg)
            && (Lookup(reg.infos, name).None? ==>
                  && Lookup(r.infos, name) == Some(Info(name, [], [], []))
                  && (!Fixed(name) ==> Get(r.shms, name) == Some(FreshShm(count, mapped))))
  {
    hide ChannelOk, Find;
    if Find(reg.infos, name) == |reg.infos| {
      var r := Registered(reg, name, count, mapped);
      FindAppended(reg.infos, name);
      AppendedChannels(reg, r, name, count, mapped);
      forall n | n != name
        ensures Lookup(r.infos, n) == Lookup(reg.infos, n)
        ensures Find(reg.infos, n) < |reg.infos| ==> Find(r.infos, n) < |r.infos|
      {
        AppendFind(reg.infos, Info(name, [], [], []), n);
      }
    }
  }

  ghost function Elements(s: seq<nat>): set<nat> {
    set x | x in s
  }

  lemma {:induction false} SizeOfDistinct(s: seq<nat>)
    requires Distinct(s)
    ensures |Elements(s)| == |s|
  {
    if s != [] {
      var front, last := s[..|s| - 1], s[|s| - 1];
      SizeOfDistinct(front);
      assert s == front + [last];
      assert Elements(s) == Elements(front) + {last};
      assert last !in Elements(front);
    }
  }

  lemma SubsetSize(a: set<nat>, b: set<nat>)
    requires a <= b
    ensures |a| <= |b|
  {
    assert b == a + (b - a);
  }

  lemma FewIds(s: seq<nat>)
    requires Distinct(s) && forall i :: i in s ==> i < INVALID_LOGIC
    ensures |s| <= INVALID_LOGIC
  {
    SizeOfDistinct(s);
    SubsetSize(Elements(s), {0, 1, 2, 3});
  }

  lemma AllTaken(s: seq<nat>)
    requires Distinct(s) && forall i :: 0 <= i < MAX_READER_COUNT ==> i in s
    ensures |s| >= MAX_READER_COUNT
  {
    SizeOfDistinct(s);
    SubsetSize({0, 1, 2, 3, 4, 5, 6, 7}, Elements(s));
  }

  /** Four processes cannot use up eight reader slots. */
  lemma SlotLeft(info: Info, shm: Shm)
    requires InfoOk(info) && BitsAgree(info, shm)
    ensures FirstFree(shm.flag, 0) < MAX_READER_COUNT
  {
    FewIds(info.receivers);
    if FirstFree(shm.flag, 0) == MAX_READER_COUNT {
      AllTaken(info.slots);
    }
  }

  /** A reader slot was given out: the lowest free one, with its head at the tail; nothing else moved. */
  ghost predicate SlotGiven(was: Shm, shm: Shm, index: nat) {
    && index < 8 && index !in was.flag && (forall j :: 0 <= j < index ==> j in was.flag)
    && |was.heads| == |shm.heads| == 8 && shm.heads[index] == was.tail
    && (forall j :: 0 <= j < 8 && j != index ==> shm.heads[j] == was.heads[j])
    && shm.flag == was.flag + {index}
    && shm.mapped == was.mapped && shm.slotCount == was.slotCount && shm.tail == was.tail
  }

  lemma AddedBitAgrees(info: Info, shm: Shm, logic: nat)
    requires InfoOk(info) && BitsAgree(info, shm) && logic < INVALID_LOGIC && logic !in info.receivers && shm.mapped
    ensures var (shm', i) := AllocSlot(shm);
            i != NO_INDEX && BitsAgree(WithReceiver(info, logic, i), shm') && SlotGiven(shm, shm', i)
  {
    SlotLeft(info, shm);
    var (shm', i) := AllocSlot(shm);
    assert i !in info.slots;
  }

  /** The index of a listed receiver is one of the channel's bits. */
  lemma IndexIsBit(info: Info, shm: Shm, logic: nat)
    requires InfoOk(info) && BitsAgree(info, shm)
    ensures if logic in info.receivers then IndexFor(info, logic) in shm.flag
            && IndexFor(info, logic) < MAX_READER_COUNT
            else IndexFor(info, logic) == NO_INDEX
  {
  }

  ghost predicate Sends(info: Option<Info>, id: nat) {
    info.Some? && id in info.value.senders
  }

  ghost predicate Receives(info: Option<Info>, id: nat) {
    info.Some? && id in info.value.receivers
  }

  /** What one ALLOCATE request does to channel `name`. */
  ghost predicate Allocated(before: Option<Info>, after: Option<Info>, shm: Option<Shm>, logic: nat, role: nat,
            reply: Reply) {
    && after.Some? && shm.Some?
    && (forall x :: x != logic || role == ROLE_RECEIVER ==> (x in after.value.senders <==> Sends(before, x)))
    && (forall x :: x != logic || role != ROLE_RECEIVER ==> (x in after.value.receivers <==> Receives(before, x)))
    && (forall x :: Receives(before, x) ==> IndexFor(after.value, x) == IndexFor(before.value, x))
    && (if role == ROLE_RECEIVER then
          if logic in after.value.receivers then
            reply == Reply(logic, Some(IndexFor(after.value, logic))) && IndexFor(after.value, logic) in shm.value.flag
          else reply == NoReply && !shm.value.mapped && (before.Some? ==> after == before)
        else reply == Reply(logic, None) && logic in after.value.senders)
  }

  /** The ring a request finds: the channel's, or the one it creates, empty and with the size it asks for. */
  ghost function RingBefore(reg: Reg, name: string, count: nat, mapped: bool): Shm {
    if name in reg.shms then reg.shms[name] else Shm(mapped, count, {}, [0, 0, 0, 0, 0, 0, 0, 0], 0)
  }

  /** What one ALLOCATE request does to the channel's ring: a new receiver gets a slot, anybody else changes nothing. */
  ghost predicate RingAllocated(before: Option<Info>, after: Option<Info>, was: Shm, shm: Option<Shm>, logic: nat,
                                role: nat) {
    shm.Some? &&
    if role == ROLE_RECEIVER && !Receives(before, logic) && Receives(after, logic)
    then SlotGiven(was, shm.value, IndexFor(after.value, logic)) else shm.value == was
  }

  lemma SenderJoins(info: Info, shms: map<string, Shm>, logic: nat)
    requires ChannelOk(info, shms) && logic < INVALID_LOGIC
    ensures var r := WithRole(info, logic, ROLE_SENDER, NO_INDEX);
            && ChannelOk(r, shms) && r.name == info.name && logic in r.senders && r.receivers == info.receivers
            && (forall x :: x != logic ==> (x in r.senders <==> x in info.senders))
            && (forall x :: x in info.receivers ==> IndexFor(r, x) == IndexFor(info, x))
  {
    AddKeeps(info, logic, ROLE_SENDER, NO_INDEX);
  }

  lemma ReceiverJoins(info: Info, shms: map<string, Shm>, logic: nat)
    requires ChannelOk(info, shms) && !Fixed(info.name) && logic < INVALID_LOGIC && logic !in info.receivers
    requires info.name in shms && shms[info.name].mapped
    ensures var (shm, i) := AllocSlot(shms[info.name]);
            var r := WithRole(info, logic, ROLE_RECEIVER, i);
            && i != NO_INDEX && ChannelOk(r, shms[info.name := shm]) && r.name == info.name
            && logic in r.receivers && IndexFor(r, logic) == i && i in shm.flag && r.senders == info.senders
            && SlotGiven(shms[info.name], shm, i)
            && (forall x :: x != logic ==> (x in r.receivers <==> x in info.receivers))
            && (forall x :: x in info.receivers ==> x in r.receivers && IndexFor(r, x) == IndexFor(info, x))
  {
    hide BitsAgree;
    AddedBitAgrees(info, shms[info.name], logic);
    var (shm, i) := AllocSlot(shms[info.name]);
    AddKeeps(info, logic, ROLE_RECEIVER, i);
  }

  lemma AllocateIn(reg: Reg, k: nat, logic: nat, role: nat)
    requires RegInv(reg) && k < |reg.infos| && logic < INVALID_LOGIC && (role == ROLE_SENDER || role == ROLE_RECEIVER)
    requires !Fixed(reg.infos[k].name)
    ensures var (r, reply) := AllocateAt(reg, k, logic, role);
            var name := reg.infos[k].name;
            && RegInv(r)
            && (forall n :: n != name ==>
                          Lookup(r.infos, n) == Lookup(reg.infos, n) && Get(r.shms, n) == Get(reg.shms, n))
            && Allocated(Some(reg.infos[k]), Lookup(r.infos, name), Get(r.shms, name), logic, role, reply)
            && name in reg.shms
            && RingAllocated(Some(reg.infos[k]), Lookup(r.infos, name), reg.shms[name], Get(r.shms, name), logic, role)
  {
    hide InfoOk, BitsAgree, WithRole, IndexFor, SlotGiven;
    var info, name := reg.infos[k], reg.infos[k].name;
    assert ChannelOk(info, reg.shms);
    FindIs(reg.infos, k);
    if role != ROLE_RECEIVER {
      SenderJoins(info, reg.shms, logic);
      ReplaceKeeps(reg, k, WithRole(info, logic, role, NO_INDEX), reg.shms);
    } else {
      IndexIsBit(info, reg.shms[name], logic);
      if logic !in info.receivers && reg.shms[name].mapped {
        ReceiverJoins(info, reg.shms, logic);
        var (shm, i) := AllocSlot(reg.shms[name]);
        ReplaceKeeps(reg, k, WithRole(info, logic, role, i), reg.shms[name := shm]);
      }
    }
  }

  lemma NotMapped(reg: Reg, name: string)
    requires RegInv(reg) && !Fixed(name) && Lookup(reg.infos, name).None?
    ensures name !in reg.shms
  {
  }

  lemma FreshIsRingBefore(reg: Reg, name: string, count: nat, mapped: bool)
    requires RegInv(reg) && !Fixed(name)
    ensures Get(Registered(reg, name, count, mapped).shms, name) == Some(RingBefore(reg, name, count, mapped))
  {
    hide BitsAgree, InfoOk;
    RegisteredKeeps(reg, name, count, mapped);
    if Find(reg.infos, name) < |reg.infos| {
      assert ChannelOk(reg.infos[Find(reg.infos, name)], reg.shms);
    } else {
      NotMapped(reg, name);
      assert FreshShm(count, mapped).heads == [0, 0, 0, 0, 0, 0, 0, 0];
    }
  }

  /**
   * An ALLOCATE keeps the registry in order, touches its own channel only, and answers a receiver with the one bit
   * that is set for it; it comes away empty-handed only if the shared memory could not be created.
   */
  lemma AllocateKeeps(reg: Reg, logic: nat, role: nat, name: string, count: nat, mapped: bool)
    requires RegInv(reg) && logic < INVALID_LOGIC && (role == ROLE_SENDER || role == ROLE_RECEIVER) && !Fixed(name)
    ensures var (r, reply) := AllocateStep(reg, logic, role, name, count, mapped);
            && RegInv(r)
            && (forall n :: n != name ==>
                          Lookup(r.infos, n) == Lookup(reg.infos, n) && Get(r.shms, n) == Get(reg.shms, n))
            && Allocated(Lookup(reg.infos, name), Lookup(r.infos, name), Get(r.shms, name), logic, role, reply)
            && RingAllocated(Lookup(reg.infos, name), Lookup(r.infos, name), RingBefore(reg, name, count, mapped),
                          Get(r.shms, name), logic, role)
  {
    hide SlotGiven, WithRole, RingBefore;
    RegisteredKeeps(reg, name, count, mapped);
    var reg1 := Registered(reg, name, count, mapped);
    var k := Find(reg1.infos, name);
    AllocateIn(reg1, k, logic, role);
    FreshIsRingBefore(reg, name, count, mapped);
  }

  /** The new reader holds nobody up: a send is admitted exactly as the earlier readers let it. */
  lemma NewReaderHoldsNobodyUp(was: Shm, shm: Shm, index: nat, need: nat)
    requires SlotGiven(was, shm, index) && forall r :: r in was.flag ==> r < 8
    ensures Admits(shm, need) <==>
            && need <= was.slotCount - 1
            && forall r :: r in was.flag ==> Sub(Wrap32, was.tail, was.heads[r]) + need <= was.slotCount - 1
  {
    assert Sub(Wrap32, shm.tail, shm.heads[index]) == 0;
    assert index in shm.flag;
    forall r | r in was.flag
      ensures r in shm.flag && r != index && shm.heads[r] == was.heads[r]
    {
    }
  }

  /** A request by somebody who has the role already is only answered. */
  lemma SettledRequest(reg: Reg, logic: nat, role: nat, name: string, count: nat, mapped: bool)
    requires RegInv(reg) && logic < INVALID_LOGIC && (role == ROLE_SENDER || role == ROLE_RECEIVER) && !Fixed(name)
    requires Lookup(reg.infos, name).Some?
    requires var info := Lookup(reg.infos, name).value;
             if role == ROLE_RECEIVER then logic in info.receivers else logic in info.senders
    ensures var info := Lookup(reg.infos, name).value;
            AllocateStep(reg, logic, role, name, count, mapped)
            == (reg, Reply(logic, if role == ROLE_RECEIVER then Some(IndexFor(info, logic)) else None))
  {
    var k := Find(reg.infos, name);
    var info := reg.infos[k];
    assert ChannelOk(info, reg.shms);
    if role == ROLE_RECEIVER {
      IndexIsBit(info, reg.shms[name], logic);
    } else {
      assert WithRole(info, logic, role, NO_INDEX) == info;
      assert reg.infos[k := info] == reg.infos;
    }
  }

  /** Asking twice changes nothing and gives the same answer. */
  lemma AllocateAgain(reg: Reg, logic: nat, role: nat, name: string, count: nat, mapped: bool, count': nat,
                      mapped': bool)
    requires RegInv(reg) && logic < INVALID_LOGIC && (role == ROLE_SENDER || role == ROLE_RECEIVER) && !Fixed(name)
    requires AllocateStep(reg, logic, role, name, count, mapped).1 != NoReply
    ensures var (r, reply) := AllocateStep(reg, logic, role, name, count, mapped);
            AllocateStep(r, logic, role, name, count', mapped') == (r, reply)
  {
    hide RegInv;
    AllocateKeeps(reg, logic, role, name, count, mapped);
    var (r, reply) := AllocateStep(reg, logic, role, name, count, mapped);
    SettledRequest(r, logic, role, name, count', mapped');
  }

  lemma OthersInhabited(reg: Reg, r: Reg, name: string)
    requires RegInv(reg) && RegInv(r) && Inhabited(reg) && !Fixed(name)
    requires forall n :: n != name ==> Lookup(r.infos, n) == Lookup(reg.infos, n)
    ensures Inhabited(r) <==> !(Lookup(r.infos, name).Some? && Lookup(r.infos, name).value.Empty())
  {
    hide ChannelOk;
    forall k | 0 <= k < |r.infos| && !Fixed(r.infos[k].name) && r.infos[k].name != name
      ensures !r.infos[k].Empty()
    {
      FindIs(r.infos, k);
      assert Lookup(reg.infos, r.infos[k].name) == Some(r.infos[k]);
      var j := Find(reg.infos, r.infos[k].name);
      assert reg.infos[j] == r.infos[k];
    }
    var k := Find(r.infos, name);
    forall j | 0 <= j < |r.infos| && r.infos[j].name == name
      ensures j == k
    {
      FindIs(r.infos, j);
    }
  }

  lemma BeforeInhabited(reg: Reg, name: string)
    requires Inhabited(reg) && !Fixed(name) && Lookup(reg.infos, name).Some?
    ensures !Lookup(reg.infos, name).value.Empty()
  {
  }

  lemma NewcomerListed(reg: Reg, logic: nat, role: nat, name: string, count: nat, mapped: bool)
    requires RegInv(reg) && Inhabited(reg) && logic < INVALID_LOGIC
             && (role == ROLE_SENDER || role == ROLE_RECEIVER) && !Fixed(name)
    ensures var (r, reply) := AllocateStep(reg, logic, role, name, count, mapped);
            Lookup(r.infos, name).Some?
            && (Lookup(r.infos, name).value.Empty() <==>
                          role == ROLE_RECEIVER && Lookup(reg.infos, name).None? && !mapped)
  {
    hide RegInv, Find;
    AllocateKeeps(reg, logic, role, name, count, mapped);
    RegisteredKeeps(reg, name, count, mapped);
    if Lookup(reg.infos, name).Some? {
      BeforeInhabited(reg, name);
    }
  }

  /** The one way to a channel without members: a first receiver whose shared memory could not be created. */
  lemma AllocateInhabits(reg: Reg, logic: nat, role: nat, name: string, count: nat, mapped: bool)
    requires RegInv(reg) && Inhabited(reg) && logic < INVALID_LOGIC
             && (role == ROLE_SENDER || role == ROLE_RECEIVER) && !Fixed(name)
    ensures Inhabited(AllocateStep(reg, logic, role, name, count, mapped).0)
       <==> !(role == ROLE_RECEIVER && Lookup(reg.infos, name).None? && !mapped)
  {
    hide BitsAgree, InfoOk, WithRole, IndexFor, Allocated;
    AllocateKeeps(reg, logic, role, name, count, mapped);
    var (r, reply) := AllocateStep(reg, logic, role, name, count, mapped);
    OthersInhabited(reg, r, name);
    NewcomerListed(reg, logic, role, name, count, mapped);
  }

  // ----- RELEASE -----

  lemma BitLeaves(info: Info, shm: Shm, logic: nat)
    requires InfoOk(info) && BitsAgree(info, shm)
    ensures BitsAgree(WithoutMember(info, logic), FreeSlot(shm, IndexFor(info, logic)))
    ensures FreeSlot(shm, IndexFor(info, logic)) == shm.(flag := shm.flag - {IndexFor(info, logic)})
  {
    var k := IndexOf(info.receivers, logic);
    IndexIsBit(info, shm, logic);
    if k < |info.receivers| {
      RemoveAtKeeps(info.slots, k);
    } else {
      assert shm.flag - {NO_INDEX} == shm.flag;
    }
  }

  /** A member leaves, and its own bit with it. */
  lemma MemberLeaves(info: Info, shms: map<string, Shm>, logic: nat)
    requires ChannelOk(info, shms)
    ensures var r := WithoutMember(info, logic);
            var shm := FreeSlotOf(Get(shms, info.name), IndexFor(info, logic));
            && r.name == info.name && ChannelOk(r, Put(shms, info.name, shm))
            && (!Fixed(info.name) ==> shm == Some(shms[info.name].(flag := shms[info.name].flag - {IndexFor(info,
                      logic)})))
  {
    RemoveKeeps(info, logic);
    if !Fixed(info.name) {
      BitLeaves(info, shms[info.name], logic);
    }
  }

  /** What RELEASE does to the channel: the member goes; a forced or last release takes the channel down. */
  ghost predicate Released(before: Option<Info>, shm: Option<Shm>, after: Option<Info>, shm': Option<Shm>,
                           logic: nat, force: nat, told: seq<nat>) {
    if before.None? then after.None? && shm' == shm && told == []
    else
      var left := WithoutMember(before.value, logic);
      if force == RELEASE_FORCE || left.Empty() then
        after.None? && shm'.None? && told == [logic] + left.senders + left.receivers
      else
        && after == Some(left) && shm.Some? && told == [logic]
        && shm' == Some(shm.value.(flag := shm.value.flag - {IndexFor(before.value, logic)}))
  }

  lemma ReleaseStays(reg: Reg, k: nat, logic: nat)
    requires RegInv(reg) && k < |reg.infos| && !Fixed(reg.infos[k].name)
    ensures var info := reg.infos[k];
            var left := WithoutMember(info, logic);
            var r := Reg(reg.infos[k := left], Put(reg.shms, info.name, FreeSlotOf(Get(reg.shms, info.name),
                      IndexFor(info, logic))));
            && RegInv(r) && Lookup(r.infos, info.name) == Some(left)
            && Get(r.shms, info.name) == Some(reg.shms[info.name].(flag := reg.shms[info.name].flag - {IndexFor(info,
                      logic)}))
            && (forall n :: n != info.name ==>
                          Lookup(r.infos, n) == Lookup(reg.infos, n) && Get(r.shms, n) == Get(reg.shms, n))
  {
    hide BitsAgree, InfoOk, WithoutMember, IndexFor, FreeSlotOf, Find;
    var info := reg.infos[k];
    assert ChannelOk(info, reg.shms);
    MemberLeaves(info, reg.shms, logic);
    ReplaceKeeps(reg, k, WithoutMember(info, logic),
                 Put(reg.shms, info.name, FreeSlotOf(Get(reg.shms, info.name), IndexFor(info, logic))));
  }

  lemma ChannelMapped(reg: Reg, k: nat)
    requires RegInv(reg) && k < |reg.infos| && !Fixed(reg.infos[k].name)
    ensures reg.infos[k].name in reg.shms
  {
    assert ChannelOk(reg.infos[k], reg.shms);
  }

  lemma ReleaseKeeps(reg: Reg, name: string, logic: nat, force: nat)
    requires RegInv(reg) && !Fixed(name)
    ensures var (r, told) := ReleaseStep(reg, name, logic, force);
            && RegInv(r) && (Inhabited(reg) ==> Inhabited(r))
            && (forall n :: n != name ==>
                          Lookup(r.infos, n) == Lookup(reg.infos, n) && Get(r.shms, n) == Get(reg.shms, n))
            && Released(Lookup(reg.infos, name), Get(reg.shms, name), Lookup(r.infos, name), Get(r.shms, name),
                      logic, force, told)
  {
    hide RegInv, WithoutMember, IndexFor, FreeSlotOf, Inhabited, Find;
    var k := Find(reg.infos, name);
    var r := ReleaseStep(reg, name, logic, force).0;
    if k < |reg.infos| {
      assert reg.infos[k].name in reg.shms by {
        ChannelMapped(reg, k);
      }
      if force == RELEASE_FORCE || WithoutMember(reg.infos[k], logic).Empty() {
        RemoveKeepsReg(reg, k);
        assert r == Reg(reg.infos[..k] + reg.infos[k + 1..], reg.shms - {reg.infos[k].name});
        assert RegInv(r);
      } else {
        ReleaseStays(reg, k, logic);
        assert RegInv(r);
      }
      if Inhabited(reg) {
        OthersInhabited(reg, r, name);
      }
    } else {
      NotMapped(reg, name);
    }
  }

  /** Somebody other than `id` is attached to the channel. */
  ghost predicate OthersAttached(info: Info, id: nat) {
    exists x :: x != id && (x in info.senders || x in info.receivers)
  }

  lemma EmptyMeansNobody(info: Info, id: nat)
    requires InfoOk(info)
    ensures WithoutMember(info, id).Empty() <==> !OthersAttached(info, id)
  {
    hide Without, RemoveAt, IndexOf;
    RemoveKeeps(info, id);
    var left := WithoutMember(info, id);
    if !left.Empty() {
      var x := if left.senders != [] then left.senders[0] else left.receivers[0];
      assert x in left.senders || x in left.receivers;
    }
  }

  lemma LookupOk(reg: Reg, name: string)
    requires RegInv(reg) && Lookup(reg.infos, name).Some?
    ensures InfoOk(Lookup(reg.infos, name).value)
  {
    assert ChannelOk(reg.infos[Find(reg.infos, name)], reg.shms);
  }

  lemma OthersIndex(info: Info, id: nat)
    requires InfoOk(info)
    ensures forall x :: x != id ==> IndexFor(WithoutMember(info, id), x) == IndexFor(info, x)
  {
    hide WithoutMember;
    RemoveKeeps(info, id);
  }

  /**
   * RELEASE in terms of the members: the channel is taken down exactly if it is forced or nobody else is attached; then
   * the requester and all others are told, otherwise the requester alone.
   */
  lemma ReleaseByMembers(reg: Reg, name: string, logic: nat, force: nat)
    requires RegInv(reg) && !Fixed(name) && Lookup(reg.infos, name).Some?
    ensures var info, (r, told) := Lookup(reg.infos, name).value, ReleaseStep(reg, name, logic, force);
            var down := force == 1 || !OthersAttached(info, logic);
            && (Lookup(r.infos, name).None? <==> down) && (Get(r.shms, name).None? <==> down)
            && |told| > 0 && told[0] == logic
            && (forall x :: x in told[1..] <==> down && x != logic && (x in info.senders || x in info.receivers))
            && (!down ==> forall x :: x != logic ==>
                  var left := Lookup(r.infos, name).value;
                  (x in left.senders <==> x in info.senders) && (x in left.receivers <==> x in info.receivers)
                  && IndexFor(left, x) == IndexFor(info, x))
  {
    hide RegInv, WithoutMember, IndexFor, Find, ReleaseStep;
    ReleaseKeeps(reg, name, logic, force);
    var info := Lookup(reg.infos, name).value;
    LookupOk(reg, name);
    EmptyMeansNobody(info, logic);
    RemoveKeeps(info, logic);
    OthersIndex(info, logic);
    var (r, told) := ReleaseStep(reg, name, logic, force);
    var left := WithoutMember(info, logic);
    if force == RELEASE_FORCE || left.Empty() {
      assert told[1..] == left.senders + left.receivers;
    }
  }

  // ----- a crash -----

  ghost function InfoOptionAfter(info: Option<Info>, id: nat): Option<Info> {
    if info.None? then None else InfoAfter(info.value, id)
  }

  ghost function ShmOptionAfter(info: Option<Info>, shm: Option<Shm>, id: nat): Option<Shm> {
    if info.None? then shm else ShmAfter(info.value, shm, id)
  }

  lemma KeepsName(info: Info, id: nat)
    requires InfoAfter(info, id).Some?
    ensures InfoAfter(info, id).value.name == info.name
  {
  }

  lemma NotBehind(infos: seq<Info>)
    requires NamesDistinct(infos) && infos != []
    ensures Lookup(infos[1..], infos[0].name) == None
  {
    var tail := infos[1..];
    assert forall j :: 0 <= j < |tail| ==> tail[j] == infos[j + 1] && tail[j].name != infos[0].name;
  }

  /** Erasing while walking reaches every channel once and mixes up none. */
  lemma {:induction false} CrashEach(infos: seq<Info>, shms: map<string, Shm>, id: nat, name: string)
    requires NamesDistinct(infos)
    ensures var r := CrashFrom(infos, shms, id);
            && Lookup(r.infos, name) == InfoOptionAfter(Lookup(infos, name), id)
            && Get(r.shms, name) == ShmOptionAfter(Lookup(infos, name), Get(shms, name), id)
  {
    hide WithoutMember, FreeSlotOf, IndexFor;
    if infos != [] {
      var first := infos[0];
      var shms1 := Put(shms, first.name, ShmAfter(first, Get(shms, first.name), id));
      var rest := CrashFrom(infos[1..], shms1, id);
      CrashEach(infos[1..], shms1, id, name);
      LookupFront(first, infos[1..], name);
      assert infos == [first] + infos[1..];
      if InfoAfter(first, id).Some? {
        KeepsName(first, id);
        LookupFront(InfoAfter(first, id).value, rest.infos, name);
      } else {
        assert [] + rest.infos == rest.infos;
      }
      if name == first.name {
        NotBehind(infos);
      }
    }
  }

  lemma {:induction false} CrashNames(infos: seq<Info>, shms: map<string, Shm>, id: nat)
    requires NamesDistinct(infos)
    ensures NamesDistinct(CrashFrom(infos, shms, id).infos)
  {
    hide WithoutMember, FreeSlotOf, IndexFor;
    if infos != [] {
      var first := infos[0];
      var shms1 := Put(shms, first.name, ShmAfter(first, Get(shms, first.name), id));
      var rest := CrashFrom(infos[1..], shms1, id);
      CrashNames(infos[1..], shms1, id);
      CrashEach(infos[1..], shms1, id, first.name);
      NotBehind(infos);
      if InfoAfter(first, id).Some? {
        KeepsName(first, id);
        var kept := InfoAfter(first, id).value;
        forall j | 0 <= j < |rest.infos|
          ensures rest.infos[j].name != kept.name
        {
          assert Find(rest.infos, kept.name) == |rest.infos|;
        }
      }
    }
  }

  /** What a crash of `id` does to one channel. */
  ghost predicate Crashed(before: Option<Info>, shm: Option<Shm>, after: Option<Info>, shm': Option<Shm>, id: nat) {
    if before.None? || !before.value.Lists(id) then after == before && shm' == shm
    else
      var index := IndexFor(before.value, id);
      var left := WithoutMember(before.value, id);
      if Fixed(before.value.name) then after == before && shm' == FreeSlotOf(shm, index)
      else if left.Empty() then after.None? && shm'.None?
      else
        && after == Some(left) && !left.Lists(id)
        && shm.Some? && shm' == Some(shm.value.(flag := shm.value.flag - {index}))
  }

  lemma CrashChannel(info: Info, shms: map<string, Shm>, id: nat)
    requires ChannelOk(info, shms)
    ensures var after, shm := InfoAfter(info, id), ShmAfter(info, Get(shms, info.name), id);
            && Crashed(Some(info), Get(shms, info.name), after, shm, id)
            && (after.Some? ==> forall m: map<string, Shm> :: Get(m, info.name) == shm ==> ChannelOk(after.value, m))
            && (after.None? ==> shm.None?)
            && (after.Some? && !Fixed(info.name) && !info.Empty() ==> !after.value.Empty())
  {
    hide BitsAgree;
    MemberLeaves(info, shms, id);
    RemoveKeeps(info, id);
  }

  lemma CrashName(reg: Reg, id: nat, n: string)
    requires RegInv(reg)
    ensures Crashed(Lookup(reg.infos, n), Get(reg.shms, n), InfoOptionAfter(Lookup(reg.infos, n), id),
                    ShmOptionAfter(Lookup(reg.infos, n), Get(reg.shms, n), id), id)
  {
    hide InfoAfter, ShmAfter, ChannelOk;
    var k := Find(reg.infos, n);
    if k < |reg.infos| {
      CrashChannel(reg.infos[k], reg.shms, id);
    }
  }

  lemma CrashChannels(reg: Reg, r: Reg, id: nat)
    requires RegInv(reg) && NamesDistinct(r.infos)
    requires forall n :: Lookup(r.infos, n) == InfoOptionAfter(Lookup(reg.infos, n), id)
    requires forall n :: Get(r.shms, n) == ShmOptionAfter(Lookup(reg.infos, n), Get(reg.shms, n), id)
    ensures RegInv(r) && (Inhabited(reg) ==> Inhabited(r))
  {
    hide InfoAfter, ShmAfter, ChannelOk;
    forall k | 0 <= k < |r.infos|
      ensures ChannelOk(r.infos[k], r.shms)
      ensures Inhabited(reg) && !Fixed(r.infos[k].name) ==> !r.infos[k].Empty()
    {
      var n := r.infos[k].name;
      FindIs(r.infos, k);
      assert Lookup(r.infos, n) == Some(r.infos[k]);
      var j := Find(reg.infos, n);
      CrashChannel(reg.infos[j], reg.shms, id);
      assert Get(r.shms, n) == ShmAfter(reg.infos[j], Get(reg.shms, n), id);
    }
    forall n | n in r.shms && !Fixed(n)
      ensures Find(r.infos, n) < |r.infos|
    {
      assert Get(r.shms, n).Some?;
      if Lookup(reg.infos, n).Some? {
        var j := Find(reg.infos, n);
        CrashChannel(reg.infos[j], reg.shms, id);
      }
    }
  }

  /**
   * A crash takes the dead process off every dynamic channel, clears exactly its reader bits, tears down the channels
   * it leaves empty, keeps the fixed ones, and touches nothing else.
   */
  lemma CrashKeeps(reg: Reg, id: nat)
    requires RegInv(reg) && id < INVALID_LOGIC
    ensures var r := CrashStep(reg, id);
            && RegInv(r) && (Inhabited(reg) ==> Inhabited(r))
            && (forall n :: Crashed(Lookup(reg.infos, n), Get(reg.shms, n), Lookup(r.infos, n), Get(r.shms, n), id))
  {
    hide ChannelOk, Crashed, InfoAfter, ShmAfter, InfoOk;
    var r := CrashStep(reg, id);
    forall n
      ensures Lookup(r.infos, n) == InfoOptionAfter(Lookup(reg.infos, n), id)
      ensures Get(r.shms, n) == ShmOptionAfter(Lookup(reg.infos, n), Get(reg.shms, n), id)
      ensures Crashed(Lookup(reg.infos, n), Get(reg.shms, n), Lookup(r.infos, n), Get(r.shms, n), id)
    {
      CrashEach(reg.infos, reg.shms, id, n);
      CrashName(reg, id, n);
    }
    CrashNames(reg.infos, reg.shms, id);
    CrashChannels(reg, r, id);
  }

  lemma LookupMapped(reg: Reg, name: string)
    requires RegInv(reg) && !Fixed(name) && Lookup(reg.infos, name).Some?
    ensures Get(reg.shms, name).Some? && Lookup(reg.infos, name).value.name == name
  {
    assert ChannelOk(reg.infos[Find(reg.infos, name)], reg.shms);
  }

  /** A crash in terms of the members: a dynamic channel goes exactly if nobody but the dead process was attached. */
  lemma CrashByMembers(reg: Reg, id: nat, name: string)
    requires RegInv(reg) && id < INVALID_LOGIC && !Fixed(name) && Lookup(reg.infos, name).Some?
    ensures var info, r := Lookup(reg.infos, name).value, CrashStep(reg, id);
            var attached := id in info.senders || id in info.receivers;
            && (Lookup(r.infos, name).None? <==> attached && !OthersAttached(info, id))
            && (Get(r.shms, name).None? <==> attached && !OthersAttached(info, id))
            && (Lookup(r.infos, name).Some? ==>
                  var left := Lookup(r.infos, name).value;
                  && id !in left.senders && id !in left.receivers
                  && forall x :: x != id ==>
                        (x in left.senders <==> x in info.senders) && (x in left.receivers <==> x in info.receivers)
                        && IndexFor(left, x) == IndexFor(info, x))
  {
    hide RegInv, WithoutMember, IndexFor, Find, CrashStep;
    CrashKeeps(reg, id);
    var info := Lookup(reg.infos, name).value;
    LookupOk(reg, name);
    LookupMapped(reg, name);
    EmptyMeansNobody(info, id);
    RemoveKeeps(info, id);
    OthersIndex(info, id);
  }

  /**
   * After the crash a send is held up by the surviving readers only, exactly as on a ring that never had the dead
   * one.
   */
  lemma CrashFreesSenders(reg: Reg, id: nat, name: string, need: nat)
    requires RegInv(reg) && id < INVALID_LOGIC && !Fixed(name)
    requires Lookup(reg.infos, name).Some? && Lookup(reg.infos, name).value.Lists(id) && name in reg.shms
    ensures var shm, shm' := reg.shms[name], Get(CrashStep(reg, id).shms, name);
            var index := IndexFor(Lookup(reg.infos, name).value, id);
            shm'.Some? ==>
              (Admits(shm'.value, need) <==>
               && (exists r :: r in shm.flag && r != index)
               && forall r :: r in shm.flag && r != index ==>
                                r < |shm.heads| && Sub(Wrap32, shm.tail, shm.heads[r]) + need <= shm.slotCount - 1)
  {
    hide RegInv, Find, WithoutMember, IndexFor, Sub;
    CrashKeeps(reg, id);
    var shm, shm' := reg.shms[name], Get(CrashStep(reg, id).shms, name);
    var index := IndexFor(Lookup(reg.infos, name).value, id);
    if shm'.Some? {
      assert shm'.value == shm.(flag := shm.flag - {index});
      assert forall r :: r in shm'.value.flag <==> r in shm.flag && r != index;
    }
  }

  // ----- whole runs of the daemon -----

  datatype Act =
    | Allocate(logic: nat, role: nat, name: string, count: nat, mapped: bool)
    | Release(name: string, logic: nat, force: nat)
    | Crash(id: nat)
    | Retry(name: string)
    | RingMoves(name: string, heads: seq<nat>, tail: nat)

  /** What gets past the parsers, for names other than the fixed ones. */
  ghost predicate Lawful(a: Act) {
    match a
    case Allocate(logic, role, name, _, _) => logic < INVALID_LOGIC
       && (role == ROLE_SENDER || role == ROLE_RECEIVER) && !Fixed(name)
    case Release(name, logic, _) => logic < INVALID_LOGIC && !Fixed(name)
    case Crash(id) => id < INVALID_LOGIC
    case Retry(name) => !Fixed(name)
    case RingMoves(name, heads, _) => !Fixed(name) && |heads| == MAX_READER_COUNT
  }

  /** openStreamShmRetry succeeds at last; senders and readers move the ring. */
  ghost function ShmStep(shm: Shm, a: Act): Shm {
    match a
    case Retry(_) => shm.(mapped := true)
    case RingMoves(_, heads, tail) => shm.(heads := heads, tail := tail)
    case _ => shm
  }

  ghost function RegNext(reg: Reg, a: Act): Reg {
    match a
    case Allocate(logic, role, name, count, mapped) => AllocateStep(reg, logic, role, name, count, mapped).0
    case Release(name, logic, force) => ReleaseStep(reg, name, logic, force).0
    case Crash(id) => CrashStep(reg, id)
    case Retry(name) => if name in reg.shms then reg.(shms := reg.shms[name := ShmStep(reg.shms[name], a)]) else reg
    case RingMoves(name, _, _) =>
      if name in reg.shms then reg.(shms := reg.shms[name := ShmStep(reg.shms[name], a)]) else reg
  }

  /** initParams: one entry for each fixed process, which is its first receiver. */
  ghost function FirstReg(fixed: map<string, Shm>): Reg {
    Reg(seq(|FIXED_NAMES|, i requires 0 <= i < |FIXED_NAMES| => Info(FIXED_NAMES[i], [], [i], [0])), fixed)
  }

  ghost predicate RegRun(fixed: map<string, Shm>, tr: seq<Reg>, acts: seq<Act>) {
    && |tr| == |acts| + 1 && (forall name :: name in fixed ==> Fixed(name))
    && tr[0] == FirstReg(fixed)
    && forall n :: 0 <= n < |acts| ==> Lawful(acts[n]) && RegNext(tr[n], acts[n]) == tr[n + 1]
  }

  lemma FirstRegOk(fixed: map<string, Shm>)
    requires forall name :: name in fixed ==> Fixed(name)
    ensures RegInv(FirstReg(fixed)) && Inhabited(FirstReg(fixed))
  {
    var reg := FirstReg(fixed);
    assert reg.infos[0].name != reg.infos[1].name && reg.infos[2].name != reg.infos[3].name;
    assert forall i, j :: 0 <= i < j < 4 ==> FIXED_NAMES[i] != FIXED_NAMES[j];
  }

  lemma ShmChangeKeeps(reg: Reg, name: string, a: Act)
    requires RegInv(reg) && name in reg.shms && !Fixed(name) && Lawful(a)
    ensures var r := reg.(shms := reg.shms[name := ShmStep(reg.shms[name], a)]);
            RegInv(r) && (Inhabited(reg) ==> Inhabited(r))
  {
    var r := reg.(shms := reg.shms[name := ShmStep(reg.shms[name], a)]);
    hide Find, InfoOk;
    forall k | 0 <= k < |r.infos|
      ensures ChannelOk(r.infos[k], r.shms)
    {
      assert ChannelOk(reg.infos[k], reg.shms);
    }
  }

  lemma RegNextKeeps(reg: Reg, a: Act)
    requires RegInv(reg) && Lawful(a)
    ensures RegInv(RegNext(reg, a))
    ensures Inhabited(reg) && (a.Allocate? ==> a.mapped) ==> Inhabited(RegNext(reg, a))
  {
    hide RegInv, Inhabited, AllocateStep, ReleaseStep, CrashStep, Allocated, Released, Crashed;
    match a
    case Allocate(logic, role, name, count, mapped) =>
      AllocateKeeps(reg, logic, role, name, count, mapped);
      if Inhabited(reg) {
        AllocateInhabits(reg, logic, role, name, count, mapped);
      }
    case Release(name, logic, force) => ReleaseKeeps(reg, name, logic, force);
    case Crash(id) => CrashKeeps(reg, id);
    case Retry(name) => if name in reg.shms { ShmChangeKeeps(reg, name, a); }
    case RingMoves(name, _, _) => if name in reg.shms { ShmChangeKeeps(reg, name, a); }
  }

  /**
   * In every state the daemon can reach, registry and reader bits agree; and if every creation succeeded, a dynamic
   * channel is registered, in both places, exactly while it has a member.
   */
  lemma {:induction false} RegistryAgrees(fixed: map<string, Shm>, tr: seq<Reg>, acts: seq<Act>, n: nat)
    requires RegRun(fixed, tr, acts) && n < |tr|
    ensures RegInv(tr[n])
    ensures (forall k :: 0 <= k < n && acts[k].Allocate? ==> acts[k].mapped) ==> Inhabited(tr[n])
  {
    hide RegInv, Inhabited, RegNext, FirstReg;
    if n == 0 {
      FirstRegOk(fixed);
    } else {
      RegistryAgrees(fixed, tr, acts, n - 1);
      RegNextKeeps(tr[n - 1], acts[n - 1]);
    }
  }
}
