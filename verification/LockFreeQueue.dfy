/** The code of LockFreeQueue run by one thread: a bounded first-in first-out queue over a ring of nodes. */
module LockFreeQueue {
  import opened Options
  import Bytes
  import EventQueue

  ghost function Pow2(k: nat): (n: nat)
    ensures n > 0
  {
    if k == 0 then 1 else 2 * Pow2(k - 1)
  }

  ghost predicate PowerOf2(n: nat) {
    exists k: nat :: Pow2(k) == n
  }

  lemma {:induction false} PowersGrow(a: nat, b: nat)
    requires a <= b
    ensures Pow2(a) <= Pow2(b)
    decreases b
  {
    if a < b {
      PowersGrow(a, b - 1);
    }
  }

  /** roundUpToPowerOf2: the smallest power of two that is not below `n`. Past 2^63 the doubling would wrap to zero. */
  method RoundUpToPowerOf2(n: nat) returns (res: nat)
    requires n <= 0x8000_0000_0000_0000
    ensures PowerOf2(res) && n <= res && 0 < res < EventQueue.SIZE_MAX_PLUS_1
    ensures forall k: nat :: n <= Pow2(k) ==> res <= Pow2(k)
  {
    res := 1;
    ghost var j: nat := 0;
    while res < n
      invariant res == Pow2(j) && (j > 0 ==> Pow2(j - 1) < n) && res < EventQueue.SIZE_MAX_PLUS_1
      decreases n - res
    {
      res, j := 2 * res, j + 1;
    }
    forall k: nat | n <= Pow2(k)
      ensures res <= Pow2(k)
    {
      if k < j {
        PowersGrow(k, j - 1);
      } else {
        PowersGrow(j, k);
      }
    }
  }

  /** `n` elements of the ring `d` from index `h` on. */
  function Window<T>(d: seq<T>, h: nat, n: nat): (s: seq<T>)
    requires |d| > 0
    ensures |s| == n
  {
    seq(n, k requires 0 <= k < n => d[(h + k) % |d|])
  }

  /** The committed flags are set for the queued positions and for no others. */
  ghost predicate Flags(c: seq<bool>, head: nat, tail: nat)
    requires |c| > 0
  {
    forall p :: head <= p < head + |c| ==> (c[p % |c|] <==> p < tail)
  }

  lemma OthersApart(h: nat, cap: nat, p: nat)
    requires cap > 0 && h <= p < h + cap
    ensures forall q :: h <= q < h + cap && q != p ==> q % cap != p % cap
  {
    forall q | h <= q < h + cap && q != p
      ensures q % cap != p % cap
    {
      EventQueue.SlotsApart(h, cap, p, q);
    }
  }

  lemma PushWindow<T>(d: seq<T>, c: seq<bool>, h: nat, t: nat, item: T)
    requires |d| == |c| > 0 && h <= t < h + |d| && Flags(c, h, t)
    ensures Window(d[t % |d| := item], h, t + 1 - h) == Window(d, h, t - h) + [item]
    ensures Flags(c[t % |d| := true], h, t + 1) && !c[t % |d|]
  {
    OthersApart(h, |d|, t);
  }

  lemma NextLap(h: nat, cap: nat)
    requires cap > 0
    ensures (h + cap) % cap == h % cap
  {
    Bytes.ModLapBefore(h + cap, cap);
  }

  lemma PopWindow<T>(d: seq<T>, c: seq<bool>, h: nat, t: nat)
    requires |d| == |c| > 0 && h < t <= h + |d| && Flags(c, h, t)
    ensures c[h % |d|] && Window(d, h, t - h)[0] == d[h % |d|]
    ensures Window(d, h + 1, t - h - 1) == Window(d, h, t - h)[1..]
    ensures Flags(c[h % |d| := false], h + 1, t)
  {
    OthersApart(h, |d|, h);
    NextLap(h, |d|);
  }

  class LockFreeQueue<T(0)> {
    const capacity: nat
    const data: array<T>
    const committed: array<bool>
    var head: nat
    var tail: nat

    ghost predicate Valid()
      reads this, committed
    {
      && 0 < capacity < EventQueue.SIZE_MAX_PLUS_1 && data.Length == committed.Length == capacity
      && data as object != committed as object
      && head <= tail <= head + capacity
      && Flags(committed[..], head, tail)
    }

    ghost function Contents(): (s: seq<T>)
      reads this, data, committed
      requires Valid()
      ensures |s| == tail - head
    {
      Window(data[..], head, tail - head)
    }

    constructor (n: nat)
      requires n <= 0x8000_0000_0000_0000
      ensures Valid() && Contents() == [] && PowerOf2(capacity) && n <= capacity
      ensures forall k: nat :: n <= Pow2(k) ==> capacity <= Pow2(k)
      ensures fresh(data) && fresh(committed)
    {
      var c := RoundUpToPowerOf2(n);
      capacity := c;
      data := new T[c];
      committed := new bool[c](_ => false);
      head := 0;
      tail := 0;
      new;
      assert Contents() == [];
    }

    /** The loop around the exchange fails spuriously `spurious` times. The slot is never busy here. */
    method Push(item: T, spurious: nat) returns (ok: bool)
      requires Valid()
      modifies this`tail, data, committed
      ensures Valid()
      ensures ok <==> |old(Contents())| < capacity
      ensures Contents() == if ok then old(Contents()) + [item] else old(Contents())
    {
      hide Flags, Window;
      var t := tail;
      var failures := spurious;
      ghost var d, c := data[..], committed[..];
      while true
        invariant t == tail && Valid() && data[..] == d && committed[..] == c && head == old(head) && t == old(tail)
        decreases failures
      {
        EventQueue.FullMeans(t, head, capacity);
        if EventQueue.Full(t, head, capacity) {
          return false;
        }
        if failures == 0 {
          break;
        }
        failures := failures - 1;
      }
      PushWindow(d, c, head, t, item);
      tail := t + 1;
      var idx := t % capacity;
      assert !committed[idx];
      data[idx] := item;
      committed[idx] := true;
      assert data[..] == d[idx := item] && committed[..] == c[idx := true];
      return true;
    }

    method Pop(spurious: nat) returns (item: Option<T>)
      requires Valid()
      modifies this`head, committed
      ensures Valid()
      ensures item == if |old(Contents())| == 0 then None else Some(old(Contents())[0])
      ensures Contents() == if item.None? then old(Contents()) else old(Contents())[1..]
    {
      hide Flags, Window;
      var h := head;
      var failures := spurious;
      ghost var d, c := data[..], committed[..];
      while true
        invariant h == head && Valid() && data[..] == d && committed[..] == c && head == old(head) && tail == old(tail)
        decreases failures
      {
        if h == tail {
          return None;
        }
        PopWindow(d, c, h, tail);
        assert committed[h % capacity];
        if failures == 0 {
          break;
        }
        failures := failures - 1;
      }
      head := h + 1;
      var idx := h % capacity;
      item := Some(data[idx]);
      committed[idx] := false;
      assert committed[..] == c[idx := false];
    }

    method IsFull() returns (full: bool)
      requires Valid()
      ensures full <==> |Contents()| == capacity
    {
      EventQueue.FullMeans(tail, head, capacity);
      full := EventQueue.Full(tail, head, capacity);
    }

    method IsEmpty() returns (empty: bool)
      requires Valid()
      ensures empty <==> Contents() == []
    {
      empty := head == tail;
    }
  }
}
