/** The daemon's handlers as the source writes them: entries edited in place, erased while walking. */
module ShmManager {
  import opened Options
  import opened Ring
  import opened PidNameInfos
  import opened Registry

  lemma NoBitNoChange(shms: map<string, Shm>, name: string)
    requires name in shms
    ensures AllocSlot(shms[name]).1 == NO_INDEX ==> shms[name := AllocSlot(shms[name]).0] == shms
  {
  }

  lemma PutFree(shms: map<string, Shm>, name: string, index: nat)
    ensures Put(shms, name, FreeSlotOf(Get(shms, name), index))
         == if index < MAX_READER_COUNT && name in shms then shms[name := FreeSlot(shms[name], index)] else shms
  {
  }

  lemma PutErased(shms: map<string, Shm>, name: string, shm: Option<Shm>)
    ensures Put(shms, name, shm) - {name} == shms - {name} == Put(shms, name, None)
  {
  }

  lemma ReplaceErased(infos: seq<Info>, k: nat, info: Info)
    requires k < |infos|
    ensures var r := infos[k := info]; r[..k] + r[k + 1..] == infos[..k] + infos[k + 1..]
  {
  }

  lemma SameName(info: Info, id: nat)
    ensures WithoutMember(info, id).name == info.name
  {
  }

  ghost predicate Within<T>(s: seq<T>, all: seq<T>) {
    forall o :: o in s ==> o in all
  }

  lemma WithinItself<T>(s: seq<T>)
    ensures Within(s, s)
  {
  }

  /** The entries before `i` are done with; the loop still has the others to do. */
  ghost function CrashRest(reg: Reg, i: nat, id: nat): Reg
    requires i <= |reg.infos|
  {
    var rest := CrashFrom(reg.infos[i..], reg.shms, id);
    Reg(reg.infos[..i] + rest.infos, rest.shms)
  }

  lemma CrashBegins(reg: Reg, id: nat)
    ensures CrashRest(reg, 0, id) == CrashFrom(reg.infos, reg.shms, id)
  {
    assert reg.infos[0..] == reg.infos && reg.infos[..0] == [];
  }

  lemma WithinAt<T>(s: seq<T>, all: seq<T>, k: nat)
    requires k < |s| && Within(s, all)
    ensures s[k] in all && Within(s[..k] + s[k + 1..], all)
  {
  }

  lemma WithinBoth<T>(a: seq<T>, b: seq<T>, c: seq<T>)
    requires Within(a, b) && Within(b, c)
    ensures Within(a, c)
  {
  }

  lemma CrashEnds(reg: Reg, id: nat)
    ensures CrashRest(reg, |reg.infos|, id) == reg
  {
    assert reg.infos[..|reg.infos|] == reg.infos && reg.infos[|reg.infos|..] == [];
  }

  /** What one turn of the crash loop makes of the registry. */
  ghost function TurnOf(reg: Reg, i: nat, id: nat): Reg
    requires i < |reg.infos|
  {
    var info := reg.infos[i];
    var after := InfoAfter(info, id);
    Reg(if after.Some? then reg.infos[i := after.value] else reg.infos[..i] + reg.infos[i + 1..],
        Put(reg.shms, info.name, ShmAfter(info, Get(reg.shms, info.name), id)))
  }

  /** A turn takes one entry from those still to do to those done, or out of the list. */
  lemma CrashTurn(reg: Reg, i: nat, id: nat)
    requires i < |reg.infos|
    ensures var r := TurnOf(reg, i, id);
            var kept := InfoAfter(reg.infos[i], id).Some?;
            && |r.infos| == (if kept then |reg.infos| else |reg.infos| - 1)
            && CrashRest(r, if kept then i + 1 else i, id) == CrashRest(reg, i, id)
  {
    hide InfoAfter, ShmAfter, Put;
    var r, after := TurnOf(reg, i, id), InfoAfter(reg.infos[i], id);
    var rest := reg.infos[i..];
    assert rest[0] == reg.infos[i];
    if after.Some? {
      assert r.infos[i + 1..] == rest[1..] && r.infos[..i + 1] == reg.infos[..i] + [after.value];
    } else {
      assert r.infos[i..] == rest[1..] && r.infos[..i] == reg.infos[..i];
    }
  }

  lemma PutSame(shms: map<string, Shm>, name: string)
    ensures Put(shms, name, Get(shms, name)) == shms && Put(shms, name, None) == shms - {name}
  {
  }

  class ShmManager {
    var infos: seq<PidNameInfo>
    var shms: map<string, Shm>
    ghost var reg: Reg

    /** `reg` is the registry the objects spell out. */
    ghost predicate Valid()
      reads this, infos
    {
      && |infos| == |reg.infos| && shms == reg.shms
      && (forall i, j :: 0 <= i < j < |infos| ==> infos[i] != infos[j])
      && (forall i :: 0 <= i < |infos| ==> infos[i].View() == reg.infos[i])
    }

    constructor ()
      ensures Valid() && reg == Reg([], map[])
    {
      infos, shms, reg := [], map[], Reg([], map[]);
    }

    method FindPidNameInfo(name: string) returns (k: nat)
      requires Valid()
      ensures k == Find(reg.infos, name)
    {
      k := 0;
      while k < |infos| && infos[k].name != name
        invariant k <= |infos| && forall j :: 0 <= j < k ==> reg.infos[j].name != name
      {
        assert infos[k].View() == reg.infos[k];
        k := k + 1;
      }
      if k < |infos| {
        assert infos[k].View() == reg.infos[k];
      }
    }

    method Count() returns (n: nat)
      requires Valid()
      ensures n == |infos| == |reg.infos| && shms == reg.shms
    {
      n := |infos|;
    }

    /** A new entry and shared memory for it, which may fail to open. */
    method AddEntry(name: string, count: nat, mapped: bool)
      requires Valid() && Find(reg.infos, name) == |reg.infos|
      modifies this
      ensures Valid() && reg == Registered(old(reg), name, count, mapped)
      ensures forall o :: o in infos ==> o in old(infos) || fresh(o)
    {
      hide Find;
      var info := new PidNameInfo(name);
      infos := infos + [info];
      var was := if name in shms then shms[name] else FreshShm(count, false);
      shms := shms[name := if was.mapped then was else was.(mapped := mapped)];
      reg := Registered(reg, name, count, mapped);
    }

    /** A channel nobody asked for before is registered first. */
    method RegisterChannel(name: string, count: nat, mapped: bool) returns (k: nat)
      requires Valid()
      modifies this
      ensures Valid() && reg == Registered(old(reg), name, count, mapped) && k == Find(reg.infos, name)
      ensures k < |infos| && (forall o :: o in infos ==> o in old(infos) || fresh(o))
    {
      hide Valid, Find;
      k := FindPidNameInfo(name);
      var n := Count();
      if k == n {
        FindAppended(reg.infos, name);
        AddEntry(name, count, mapped);
        n := Count();
      }
    }

    method Attach(k: nat, logic: nat, role: nat, index: nat)
      requires Valid() && k < |infos|
      modifies this`reg, infos[k]
      ensures Valid() && reg == old(reg).(infos := old(reg).infos[k := WithRole(old(reg).infos[k], logic, role, index)])
    {
      hide WithRole;
      infos[k].AddAllocateRole(logic, role, index);
      reg := reg.(infos := reg.infos[k := WithRole(reg.infos[k], logic, role, index)]);
    }

    /** alloc_reader_slot of channel `name`. */
    method TakeBit(name: string) returns (index: nat)
      requires Valid() && name in shms
      modifies this`shms, this`reg
      ensures Valid() && (reg, index) == (old(reg).(shms := old(reg).shms[name := AllocSlot(old(reg).shms[name]).0]),
                                          AllocSlot(old(reg).shms[name]).1)
    {
      hide AllocSlot;
      var (shm, i) := AllocSlot(shms[name]);
      shms := shms[name := shm];
      reg := reg.(shms := shms);
      index := i;
    }

    /** handleDaemon_AllocateShm. */
    method HandleAllocate(logic: nat, role: nat, name: string, count: nat, mapped: bool) returns (reply: Reply)
      requires Valid()
      modifies this, infos
      ensures Valid() && (reg, reply) == AllocateStep(old(reg), logic, role, name, count, mapped)
    {
      hide Valid, Registered, IndexFor, WithRole, Find;
      var k := RegisterChannel(name, count, mapped);
      var n := Count();
      assert infos[k] in infos;
      if role != ROLE_RECEIVER {
        Attach(k, logic, role, NO_INDEX);
        return Reply(logic, None);
      }
      var index := IndexAt(k, logic);
      if index >= MAX_READER_COUNT {
        if name !in shms {
          return NoReply;
        }
        NoBitNoChange(shms, name);
        index := TakeBit(name);
        if index == NO_INDEX {
          return NoReply;
        }
        Attach(k, logic, role, index);
      }
      reply := Reply(logic, Some(index));
    }

    /** The reader's bit of channel `name` is cleared, if there is such a bit. */
    method FreeBit(name: string, index: nat)
      requires Valid()
      modifies this`shms, this`reg
      ensures Valid() && reg == old(reg).(shms := Put(old(reg).shms, name, FreeSlotOf(Get(old(reg).shms, name), index)))
    {
      hide Put, FreeSlot, FreeSlotOf;
      PutFree(shms, name, index);
      if index < MAX_READER_COUNT && name in shms {
        shms := shms[name := FreeSlot(shms[name], index)];
      }
      reg := reg.(shms := shms);
    }

    method Detach(k: nat, id: nat)
      requires Valid() && k < |infos|
      modifies this`reg, infos[k]
      ensures Valid() && reg == old(reg).(infos := old(reg).infos[k := WithoutMember(old(reg).infos[k], id)])
    {
      hide WithoutMember;
      infos[k].Remove(id);
      reg := reg.(infos := reg.infos[k := WithoutMember(reg.infos[k], id)]);
    }

    /** The entry goes, and the shared memory is let go of. */
    method Erase(k: nat)
      requires Valid() && k < |infos|
      modifies this`infos, this`shms, this`reg
      ensures Valid() && infos == old(infos)[..k] + old(infos)[k + 1..]
      ensures reg == Reg(old(reg).infos[..k] + old(reg).infos[k + 1..], old(reg).shms - {old(reg).infos[k].name})
    {
      assert infos[k].View() == reg.infos[k];
      shms := shms - {infos[k].name};
      infos := infos[..k] + infos[k + 1..];
      reg := Reg(reg.infos[..k] + reg.infos[k + 1..], shms);
    }

    method IsUnused(k: nat) returns (unused: bool)
      requires Valid() && k < |infos|
      ensures unused <==> reg.infos[k].Empty()
    {
      assert infos[k].View() == reg.infos[k];
      unused := infos[k].senders == [] && infos[k].receivers == [];
    }

    method IndexAt(k: nat, id: nat) returns (index: nat)
      requires Valid() && k < |infos|
      ensures index == IndexFor(reg.infos[k], id)
    {
      hide IndexFor;
      assert infos[k].View() == reg.infos[k];
      index := infos[k].ReaderIndexOf(id);
    }

    /** handleDaemon_ReleaseShm; `told` are the slots the answer goes to. */
    method HandleRelease(name: string, logic: nat, force: nat) returns (told: seq<nat>)
      requires Valid()
      modifies this, infos
      ensures Valid() && (reg, told) == ReleaseStep(old(reg), name, logic, force)
    {
      hide Valid, IndexFor, WithoutMember, Find, Put, FreeSlotOf;
      var k := FindPidNameInfo(name);
      var n := Count();
      if k == n {
        return [];
      }
      var index := IndexAt(k, logic);
      Detach(k, logic);
      FreeBit(name, index);
      told := [logic];
      var unused := IsUnused(k);
      if force != RELEASE_FORCE && !unused {
        return;
      }
      var rest := MembersOf(k);
      assert [logic] + rest == [logic] + reg.infos[k].senders + reg.infos[k].receivers;
      told := told + rest;
      PutErased(old(reg).shms, name, FreeSlotOf(Get(old(reg).shms, name), index));
      ReplaceErased(old(reg).infos, k, WithoutMember(old(reg).infos[k], logic));
      SameName(old(reg).infos[k], logic);
      Erase(k);
    }

    method MembersOf(k: nat) returns (ids: seq<nat>)
      requires Valid() && k < |infos|
      ensures ids == reg.infos[k].senders + reg.infos[k].receivers
    {
      assert infos[k].View() == reg.infos[k];
      ids := infos[k].senders + infos[k].receivers;
    }

    /** handleProcessCrash: entries are erased while the list is walked. */
    method HandleProcessCrash(id: nat)
      requires Valid()
      modifies this, infos
      ensures Valid() && reg == CrashStep(old(reg), id)
    {
      if id == INVALID_LOGIC {
        return;
      }
      hide Valid, CrashFrom, CrashRest, Within;
      WithinItself(infos);
      var i := 0;
      var n := Count();
      CrashBegins(reg, id);
      while i < n
        invariant i <= n && Valid() && n == |infos| == |reg.infos| && Within(infos, old(infos))
        invariant CrashRest(reg, i, id) == CrashFrom(old(reg).infos, old(reg).shms, id)
        decreases n - i
      {
        ghost var was := infos;
        WithinAt(infos, old(infos), i);
        i := NextAfter(i, id);
        WithinBoth(infos, was, old(infos));
        n := Count();
      }
      CrashEnds(reg, id);
    }

    /** The entry at `i` is dealt with; an erased entry leaves the next one in its place. */
    method NextAfter(i: nat, id: nat) returns (next: nat)
      requires Valid() && i < |infos| == |reg.infos|
      modifies this, infos[i]
      ensures Valid() && Within(infos, old(infos)) && next <= |reg.infos|
      ensures |reg.infos| - next < old(|reg.infos|) - i && CrashRest(reg, next, id) == old(CrashRest(reg, i, id))
    {
      hide Valid, TurnOf, CrashRest, InfoAfter, Within;
      CrashTurn(reg, i, id);
      var erased := CrashEntry(i, id);
      next := if erased then i else i + 1;
    }

    /** One turn of the loop of handleProcessCrash. */
    method CrashEntry(i: nat, id: nat) returns (erased: bool)
      requires Valid() && i < |infos|
      modifies this, infos[i]
      ensures Valid() && (erased <==> InfoAfter(old(reg).infos[i], id).None?)
      ensures Within(infos, old(infos)) && reg == TurnOf(old(reg), i, id)
    {
      hide Valid, IndexFor, WithoutMember, Put, FreeSlotOf, Within;
      WithinItself(infos);
      WithinAt(infos, infos, i);
      var n := Count();
      ghost var was := reg.infos[i];
      var name, listed := Looks(i, id);
      PutSame(reg.shms, name);
      assert reg.infos[i := was] == reg.infos;
      if !listed {
        return false;
      }
      var index := IndexAt(i, id);
      FreeBit(name, index);
      if name in FIXED_NAMES {
        return false;
      }
      Detach(i, id);
      var unused := IsUnused(i);
      if !unused {
        return false;
      }
      PutErased(old(reg).shms, name, FreeSlotOf(Get(old(reg).shms, name), index));
      ReplaceErased(old(reg).infos, i, WithoutMember(was, id));
      SameName(was, id);
      Erase(i);
      return true;
    }

    method Looks(k: nat, id: nat) returns (name: string, listed: bool)
      requires Valid() && k < |infos|
      ensures name == reg.infos[k].name && listed == reg.infos[k].Lists(id)
    {
      assert infos[k].View() == reg.infos[k];
      name := infos[k].name;
      listed := id in infos[k].senders || id in infos[k].receivers;
    }
  }
}
