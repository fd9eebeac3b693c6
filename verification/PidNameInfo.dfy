/** Who is attached to one channel: the two parallel receiver lists, and the class that edits them in place. */
module PidNameInfos {

  const INVALID_LOGIC: nat := 4
  const NO_INDEX: nat := 0xFF

  const ROLE_SENDER: nat := 0
  const ROLE_RECEIVER: nat := 1

  datatype Info = Info(name: string, senders: seq<nat>, receivers: seq<nat>, slots: seq<nat>)
  {
    predicate Lists(id: nat) {
      id in senders || id in receivers
    }

    predicate Empty() {
      senders == [] && receivers == []
    }
  }

  ghost predicate Distinct(s: seq<nat>) {
    forall i, j :: 0 <= i < j < |s| ==> s[i] != s[j]
  }

  /** Aligned, free of duplicates, and only valid logic ids. */
  ghost predicate InfoOk(info: Info) {
    && |info.receivers| == |info.slots|
    && Distinct(info.senders) && Distinct(info.receivers)
    && (forall id :: id in info.senders || id in info.receivers ==> id < INVALID_LOGIC)
  }

  function IndexOf(s: seq<nat>, id: nat): (k: nat)
    ensures k <= |s|
    ensures k < |s| <==> id in s
    ensures k < |s| ==> s[k] == id
    ensures forall j :: 0 <= j < k ==> s[j] != id
  {
    if s == [] then 0 else if s[0] == id then 0 else 1 + IndexOf(s[1..], id)
  }

  function Without(s: seq<nat>, id: nat): (r: seq<nat>)
    ensures id !in r
    ensures forall x :: x != id ==> (x in r <==> x in s)
    ensures id !in s ==> r == s
  {
    if s == [] then [] else if s[0] == id then Without(s[1..], id) else [s[0]] + Without(s[1..], id)
  }

  function RemoveAt(s: seq<nat>, k: nat): (r: seq<nat>)
    requires k < |s|
    ensures |r| == |s| - 1
    ensures forall j :: 0 <= j < |r| ==> r[j] == s[if j < k then j else j + 1]
  {
    s[..k] + s[k + 1..]
  }

  function IndexFor(info: Info, id: nat): nat {
    var k := IndexOf(info.receivers, id);
    if k < |info.receivers| && k < |info.slots| then info.slots[k] else NO_INDEX
  }

  function WithSender(info: Info, id: nat): Info {
    if id >= INVALID_LOGIC || id in info.senders then info else info.(senders := info.senders + [id])
  }

  function WithReceiver(info: Info, id: nat, index: nat): Info {
    if id >= INVALID_LOGIC || id in info.receivers then info
    else info.(receivers := info.receivers + [id], slots := info.slots + [index])
  }

  function WithRole(info: Info, id: nat, role: nat, index: nat): Info {
    if role == ROLE_RECEIVER then WithReceiver(info, id, index) else WithSender(info, id)
  }

  function WithoutMember(info: Info, id: nat): Info {
    var k := IndexOf(info.receivers, id);
    var senders := Without(info.senders, id);
    if k == |info.receivers| then info.(senders := senders)
    else info.(senders := senders, receivers := RemoveAt(info.receivers, k),
               slots := if k < |info.slots| then RemoveAt(info.slots, k) else info.slots)
  }

  lemma {:induction false} WithoutDistinct(s: seq<nat>, id: nat)
    requires Distinct(s)
    ensures Distinct(Without(s, id))
  {
    if s != [] {
      var rest := Without(s[1..], id);
      WithoutDistinct(s[1..], id);
      forall i | 0 <= i < |rest|
        ensures rest[i] != s[0]
      {
        assert rest[i] in s[1..];
      }
    }
  }

  lemma IndexUnique(s: seq<nat>, id: nat, k: nat)
    requires Distinct(s) && id in s && k < |s| && s[k] == id
    ensures IndexOf(s, id) == k
  {
  }

  /** Adding a member keeps the lists aligned and gives it its index; everyone else keeps theirs. */
  lemma AddKeeps(info: Info, id: nat, role: nat, index: nat)
    requires InfoOk(info) && id < INVALID_LOGIC
    ensures var r := WithRole(info, id, role, index);
            && InfoOk(r) && r.name == info.name
            && (role == ROLE_RECEIVER && id !in info.receivers ==> IndexFor(r, id) == index)
            && (forall x :: x in info.receivers ==> IndexFor(r, x) == IndexFor(info, x))
            && (forall x :: r.Lists(x) <==> info.Lists(x) || x == id)
  {
    var r := WithRole(info, id, role, index);
    assert r.senders == info.senders || r.senders == info.senders + [id];
    assert r.receivers == info.receivers || r.receivers == info.receivers + [id];
    forall x | x in info.receivers
      ensures IndexFor(r, x) == IndexFor(info, x)
    {
      IndexUnique(info.receivers, x, IndexOf(r.receivers, x));
    }
  }

  /** Nobody is listed twice, and no id from 4 on is listed at all. */
  lemma AddIgnores(info: Info, id: nat, role: nat, index: nat)
    requires id >= 4 || (if role == 1 then id in info.receivers else id in info.senders)
    ensures WithRole(info, id, role, index) == info
  {
  }

  /** Taking out one element leaves every other one, at its place or one before. */
  lemma RemoveAtKeeps(s: seq<nat>, k: nat)
    requires k < |s| && Distinct(s)
    ensures var r := RemoveAt(s, k);
            && Distinct(r) && s[k] !in r
            && (forall j :: 0 <= j < |s| && j != k ==> s[j] in r)
            && (forall x :: x in r ==> x in s)
  {
    var r := RemoveAt(s, k);
    forall j | 0 <= j < |s| && j != k
      ensures s[j] in r
    {
      assert r[if j < k then j else j - 1] == s[j];
    }
  }

  /** The index list follows the receiver list. */
  lemma OthersKeepIndex(info: Info, id: nat, x: nat)
    requires InfoOk(info) && x != id && x in info.receivers
    ensures IndexFor(WithoutMember(info, id), x) == IndexFor(info, x) && x in WithoutMember(info, id).receivers
  {
    hide IndexOf, Without, RemoveAt;
    var r, k := WithoutMember(info, id), IndexOf(info.receivers, id);
    if k < |info.receivers| {
      RemoveAtKeeps(info.receivers, k);
      var j := IndexOf(info.receivers, x);
      var j' := if j < k then j else j - 1;
      assert r.receivers[j'] == x && r.slots[j'] == info.slots[j];
      IndexUnique(r.receivers, x, j');
    }
  }

  /** Removing takes the process off both lists, with its own index and no other. */
  lemma RemoveKeeps(info: Info, id: nat)
    requires InfoOk(info)
    ensures var r := WithoutMember(info, id);
            && InfoOk(r) && r.name == info.name && !r.Lists(id)
            && (forall x :: x != id ==> (x in r.senders <==> x in info.senders))
            && (forall x :: x != id ==> (x in r.receivers <==> x in info.receivers))
            && (forall x :: x != id && x in info.receivers ==> IndexFor(r, x) == IndexFor(info, x))
  {
    var r, k := WithoutMember(info, id), IndexOf(info.receivers, id);
    WithoutDistinct(info.senders, id);
    if k < |info.receivers| {
      RemoveAtKeeps(info.receivers, k);
    }
    hide IndexFor;
    forall x | x != id && x in info.receivers
      ensures x in r.receivers && IndexFor(r, x) == IndexFor(info, x)
    {
      OthersKeepIndex(info, id, x);
    }
  }

  lemma FirstAt(s: seq<nat>, id: nat, k: nat)
    requires k < |s| && s[k] == id && forall j :: 0 <= j < k ==> s[j] != id
    ensures IndexOf(s, id) == k
  {
  }

  /** The object of the source, edited in place. */
  class PidNameInfo {
    var name: string
    var senders: seq<nat>
    var receivers: seq<nat>
    var receiverSlots: seq<nat>

    function View(): Info
      reads this
    {
      Info(name, senders, receivers, receiverSlots)
    }

    constructor (n: string)
      ensures View() == Info(n, [], [], [])
    {
      name, senders, receivers, receiverSlots := n, [], [], [];
    }

    method AddReceiver(id: nat, index: nat)
      modifies this
      ensures View() == WithReceiver(old(View()), id, index)
    {
      if id >= INVALID_LOGIC || id in receivers {
        return;
      }
      receivers := receivers + [id];
      receiverSlots := receiverSlots + [index];
    }

    method AddAllocateRole(id: nat, role: nat, index: nat)
      modifies this
      ensures View() == WithRole(old(View()), id, role, index)
    {
      if role == ROLE_RECEIVER {
        AddReceiver(id, index);
      } else if id < INVALID_LOGIC && id !in senders {
        senders := senders + [id];
      }
    }

    method Remove(id: nat)
      modifies this
      ensures View() == WithoutMember(old(View()), id)
    {
      senders := Without(senders, id);
      var i := 0;
      while i < |receivers|
        invariant i <= |receivers| && forall j :: 0 <= j < i ==> receivers[j] != id
        invariant View() == old(View()).(senders := Without(old(senders), id))
      {
        if receivers[i] == id {
          FirstAt(receivers, id, i);
          receivers := receivers[..i] + receivers[i + 1..];
          if i < |receiverSlots| {
            receiverSlots := receiverSlots[..i] + receiverSlots[i + 1..];
          }
          return;
        }
        i := i + 1;
      }
    }

    method ReaderIndexOf(id: nat) returns (index: nat)
      ensures index == IndexFor(View(), id)
    {
      var i := 0;
      while i < |receivers|
        invariant i <= |receivers| && forall j :: 0 <= j < i ==> receivers[j] != id
      {
        if receivers[i] == id {
          FirstAt(receivers, id, i);
          return if i < |receiverSlots| then receiverSlots[i] else NO_INDEX;
        }
        i := i + 1;
      }
      return NO_INDEX;
    }
  }
}
