/** How one message is cut into slots by the sender and put together again by a reader. */
module Slicing {
  import opened Bytes

  const MAX_SLICE_COUNT: nat := 255

  datatype Message = Message(id: u16, data: seq<byte>)

  /** One physical slot; `stamp` is m_seq. */
  datatype Slot = Slot(stamp: nat, id: nat, count: nat, data: seq<byte>)

  /** The reader's local variables while it puts a message together. */
  datatype Assembly = Assembly(count: nat, done: nat, idx: nat, buf: seq<byte>, id: u16)

  const NOTHING := Assembly(0, 0, 0, [], 0)

  // ----- sender side -----

  /** ceil((6 + len) / slotSize), without the wrap-around of the source's uint32 sums. */
  function Need(slotSize: nat, len: nat): nat
    requires slotSize >= 6
  {
    (6 + len + slotSize - 1) / slotSize
  }

  /** The same sum as the source computes it: every intermediate value is a uint32. */
  function NeedU32(slotSize: nat, len: nat): nat
    requires slotSize >= 6
  {
    var payloadLen := (2 + len % U32) % U32;
    var totalLen := (4 + payloadLen) % U32;
    (totalLen + slotSize - 1) % U32 / slotSize
  }

  function Header(msg: Message): (s: seq<byte>)
    ensures |s| == 6
  {
    EncodeU32((2 + |msg.data|) % U32) + EncodeU16(msg.id)
  }

  /** Bytes of payload that one pass of the write loop copies. */
  function Copied(slotSize: nat, len: nat, first: bool, idx: nat): (n: nat)
    requires slotSize >= 6 && idx <= len
    ensures idx + n <= len || first
    ensures first ==> n <= len
  {
    if first then Min(len, slotSize - 6) else Min(len - idx, slotSize)
  }

  /** What one pass of the write loop puts at the front of a slot. */
  function Piece(slotSize: nat, msg: Message, first: bool, idx: nat): (s: seq<byte>)
    requires slotSize >= 6 && idx <= |msg.data|
    ensures |s| <= slotSize
  {
    var n := Copied(slotSize, |msg.data|, first, idx);
    if first then Header(msg) + msg.data[..n] else msg.data[idx..idx + n]
  }

  /** t_msg_index when slice `k` is about to be written or read. */
  function Offset(slotSize: nat, len: nat, k: nat): (idx: nat)
    requires slotSize >= 6
    ensures idx <= len
    ensures k == 0 ==> idx == 0
  {
    if k == 0 then 0
    else Offset(slotSize, len, k - 1) + Copied(slotSize, len, k == 1, Offset(slotSize, len, k - 1))
  }

  function Slice(slotSize: nat, msg: Message, k: nat): seq<byte>
    requires slotSize >= 6
  {
    Piece(slotSize, msg, k == 0, Offset(slotSize, |msg.data|, k))
  }

  /** Writing a piece leaves the bytes behind it as the slot's last owner left them. */
  function Overwrite(was: seq<byte>, piece: seq<byte>): (s: seq<byte>)
    requires |piece| <= |was|
    ensures |s| == |was| && s[..|piece|] == piece
  {
    piece + was[|piece|..]
  }

  /** The slot holds slice `k` of `msg`; the count is written in the first slice only. */
  ghost predicate Carries(slotSize: nat, msg: Message, k: nat, slot: Slot)
    requires slotSize >= 6
  {
    && slot.id == k
    && (k == 0 ==> slot.count == Need(slotSize, |msg.data|))
    && |slot.data| == slotSize
    && Slice(slotSize, msg, k) <= slot.data
  }

  lemma HeaderLayout(msg: Message)
    requires 2 + |msg.data| < U32
    ensures var n, h := 2 + |msg.data|, Header(msg);
            && h[0] == n % 0x100 && h[1] == n / 0x100 % 0x100 && h[2] == n / 0x1_0000 % 0x100
            && h[3] == n / 0x100_0000 % 0x100 && h[4] == msg.id % 0x100 && h[5] == msg.id / 0x100
  {
  }

  /** The first slot on the wire: payload length and message id, both little-endian, then the first payload bytes. */
  lemma FirstSlotLayout(slotSize: nat, msg: Message, slot: Slot)
    requires slotSize >= 6 && 2 + |msg.data| < U32 && Carries(slotSize, msg, 0, slot)
    ensures var n := 2 + |msg.data|;
            && slot.data[0] == n % 0x100 && slot.data[1] == n / 0x100 % 0x100
            && slot.data[2] == n / 0x1_0000 % 0x100 && slot.data[3] == n / 0x100_0000 % 0x100
            && slot.data[4] == msg.id % 0x100 && slot.data[5] == msg.id / 0x100
            && forall i :: 6 <= i < slotSize && i - 6 < |msg.data| ==> slot.data[i] == msg.data[i - 6]
  {
    hide Header;
    HeaderLayout(msg);
    var piece := Slice(slotSize, msg, 0);
    assert piece == Header(msg) + msg.data[..Min(|msg.data|, slotSize - 6)];
    assert forall i :: 0 <= i < |piece| ==> slot.data[i] == piece[i];
  }

  // ----- the reference: one byte stream, cut at multiples of the slot size -----

  function Stream(msg: Message): seq<byte> {
    Header(msg) + msg.data
  }

  function Chunk(s: seq<byte>, size: nat, k: nat): seq<byte>
    requires k * size <= |s|
  {
    s[k * size..Min((k + 1) * size, |s|)]
  }

  lemma NeedBounds(slotSize: nat, len: nat)
    requires slotSize >= 6
    ensures var need := Need(slotSize, len);
            need >= 1 && (need - 1) * slotSize < 6 + len <= need * slotSize
  {
    var x := 6 + len + slotSize - 1;
    var need := x / slotSize;
    assert x == need * slotSize + x % slotSize;
    assert (need - 1) * slotSize == need * slotSize - slotSize;
  }

  lemma {:induction false} OffsetClosed(slotSize: nat, len: nat, k: nat)
    requires slotSize >= 6 && k >= 1
    ensures Offset(slotSize, len, k) == Min(len, k * slotSize - 6)
  {
    if k > 1 {
      OffsetClosed(slotSize, len, k - 1);
      assert (k - 1) * slotSize == k * slotSize - slotSize;
      assert k * slotSize >= slotSize by {
        assert (k - 1) * slotSize >= 0;
      }
    }
  }

  /** The loop condition of the writer, in terms of the number of slices written so far. */
  lemma LoopRunsNeedTimes(slotSize: nat, len: nat, k: nat)
    requires slotSize >= 6
    ensures (k == 0 || Offset(slotSize, len, k) < len) <==> k < Need(slotSize, len)
    ensures k >= Need(slotSize, len) ==> Offset(slotSize, len, k) == len
  {
    var need := Need(slotSize, len);
    NeedBounds(slotSize, len);
    if k >= 1 {
      OffsetClosed(slotSize, len, k);
      if k < need {
        assert k * slotSize <= (need - 1) * slotSize by { MulMonotone(k, need - 1, slotSize); }
      } else {
        assert need * slotSize <= k * slotSize by { MulMonotone(need, k, slotSize); }
      }
    }
  }

  lemma SliceOfTail(h: seq<byte>, d: seq<byte>, a: nat, b: nat)
    requires |h| <= a <= b <= |h| + |d|
    ensures (h + d)[a..b] == d[a - |h|..b - |h|]
  {
  }

  lemma PieceOfStream(slotSize: nat, msg: Message, a: nat)
    requires slotSize >= 6 && 6 <= a <= 6 + |msg.data|
    ensures Piece(slotSize, msg, false, a - 6) == Stream(msg)[a..Min(a + slotSize, 6 + |msg.data|)]
  {
    SliceOfTail(Header(msg), msg.data, a, Min(a + slotSize, 6 + |msg.data|));
  }

  lemma FirstPiece(slotSize: nat, msg: Message)
    requires slotSize >= 6
    ensures Piece(slotSize, msg, true, 0) == Stream(msg)[..Min(slotSize, |Stream(msg)|)]
  {
  }

  /** Slice `k` is exactly the k-th chunk of the stream. */
  lemma SliceIsChunk(slotSize: nat, msg: Message, k: nat)
    requires slotSize >= 6 && k < Need(slotSize, |msg.data|)
    ensures k * slotSize <= |Stream(msg)|
    ensures Slice(slotSize, msg, k) == Chunk(Stream(msg), slotSize, k)
  {
    hide Piece, Need;
    var len := |msg.data|;
    NeedBounds(slotSize, len);
    MulMonotone(k, Need(slotSize, len) - 1, slotSize);
    assert (k + 1) * slotSize == k * slotSize + slotSize;
    if k >= 1 {
      MulMonotone(1, k, slotSize);
      OffsetClosed(slotSize, len, k);
      PieceOfStream(slotSize, msg, k * slotSize);
    } else {
      FirstPiece(slotSize, msg);
    }
  }

  function Concat(slotSize: nat, msg: Message, k: nat): seq<byte>
    requires slotSize >= 6
  {
    if k == 0 then [] else Concat(slotSize, msg, k - 1) + Slice(slotSize, msg, k - 1)
  }

  lemma AppendChunk(s: seq<byte>, size: nat, k: nat)
    requires k * size <= |s|
    ensures s[..Min(k * size, |s|)] + Chunk(s, size, k) == s[..Min((k + 1) * size, |s|)]
  {
    assert (k + 1) * size == k * size + size;
    var a, b := k * size, Min(k * size + size, |s|);
    assert s[..a] + s[a..b] == s[..b];
  }

  /** Nothing is lost, repeated or reordered: the slices put end to end are the stream. */
  lemma {:induction false} SlicesMakeStream(slotSize: nat, msg: Message, k: nat)
    requires slotSize >= 6 && k <= Need(slotSize, |msg.data|)
    ensures Concat(slotSize, msg, k) == Stream(msg)[..Min(k * slotSize, |Stream(msg)|)]
    ensures k == Need(slotSize, |msg.data|) ==> Concat(slotSize, msg, k) == Stream(msg)
  {
    hide Slice, Chunk;
    NeedBounds(slotSize, |msg.data|);
    if k > 0 {
      SlicesMakeStream(slotSize, msg, k - 1);
      SliceIsChunk(slotSize, msg, k - 1);
      AppendChunk(Stream(msg), slotSize, k - 1);
    }
  }

  /** Reducing along the way does not change the sum modulo 2^32. */
  lemma NeedU32Sum(slotSize: nat, len: nat)
    requires 6 <= slotSize < U32 && len < U32
    ensures NeedU32(slotSize, len) == (6 + len + slotSize - 1) % U32 / slotSize
  {
    var t := (4 + (2 + len % U32) % U32) % U32;
    assert t == if 6 + len < U32 then 6 + len else 6 + len - U32;
    assert (t + slotSize - 1) % U32 == (6 + len + slotSize - 1) % U32;
  }

  lemma DropTurn(x: nat)
    requires x >= U32
    ensures x % U32 <= x - U32
  {
    DivParts(x, U32);
  }

  /** The uint32 slot count is the number of slots the loop writes exactly when the sum does not wrap. */
  lemma NeedU32Exact(slotSize: nat, len: nat)
    requires 6 <= slotSize < U32 && len < U32
    ensures NeedU32(slotSize, len) == Need(slotSize, len) <==> 6 + len + slotSize - 1 < U32
  {
    NeedU32Sum(slotSize, len);
    hide NeedU32;
    var x := 6 + len + slotSize - 1;
    ModAtMost(x, U32);
    if x >= U32 {
      DropTurn(x);
      DivDecreases(x % U32, x, slotSize);
    }
  }

  // ----- reader side -----

  /** std::vector::resize: keep the front, fill the rest with zeros. */
  function Resize(s: seq<byte>, n: nat): (r: seq<byte>)
    ensures |r| == n
  {
    if n <= |s| then s[..n] else s + seq(n - |s|, _ => 0)
  }

  /** A first slot that the reader refuses to start from. */
  predicate BadStart(slotSize: nat, slot: Slot)
    requires slotSize >= 6 && |slot.data| == slotSize
  {
    slot.id != 0 || slot.count == 0 || DecodeU32(slot.data) < 2
  }

  /** One pass of the read loop over a published slot. */
  function Absorb(slotSize: nat, a: Assembly, slot: Slot): Assembly
    requires slotSize >= 6 && |slot.data| == slotSize
  {
    if a.count == 0 then
      if BadStart(slotSize, slot) then a
      else
        var total := DecodeU32(slot.data) - 2;
        var n := Min(total, slotSize - 6);
        var buf := slot.data[6..6 + n] + Resize(a.buf, total)[n..];
        Assembly(slot.count, a.done + 1, n, buf, DecodeU16(slot.data[4..]))
    else if slot.id != a.done then
      NOTHING.(id := a.id)
    else
      var n := Min(|a.buf| - a.idx, slotSize);
      if n <= 0 then a.(done := a.done + 1)
      else
        var buf := a.buf[..a.idx] + slot.data[..n] + a.buf[a.idx + n..];
        a.(done := a.done + 1, idx := a.idx + n, buf := buf)
  }

  /** Between messages nothing is held, and no copy went past the buffer. */
  ghost predicate Sound(a: Assembly) {
    (a.count == 0 ==> a.done == 0 && a.idx == 0) && a.idx <= |a.buf|
  }

  /**
   * Whatever bytes and numbers a slot holds: it is taken exactly if it starts a message while none is being read, or
   * is the next slice of the one that is; otherwise nothing read so far is kept.
   */
  lemma TakesInOrderOnly(slotSize: nat, a: Assembly, slot: Slot)
    requires slotSize >= 6 && |slot.data| == slotSize && Sound(a)
    ensures var b := Absorb(slotSize, a, slot);
            && Sound(b)
            && (b.count > 0 <==>
                  if a.count == 0 then slot.id == 0 && slot.count > 0 && DecodeU32(slot.data) >= 2
                  else slot.id == a.done)
            && (b.count > 0 ==> b.done == a.done + 1 && b.count == if a.count == 0 then slot.count else a.count)
  {
  }

  /** The first `k` slices of `msg` are in the buffer. */
  ghost predicate Partial(slotSize: nat, msg: Message, k: nat, a: Assembly)
    requires slotSize >= 6
  {
    && a.count == Need(slotSize, |msg.data|)
    && a.done == k
    && a.idx == Offset(slotSize, |msg.data|, k)
    && |a.buf| == |msg.data|
    && a.buf[..a.idx] == msg.data[..a.idx]
    && a.id == msg.id
  }

  lemma HeaderDecodes(slotSize: nat, msg: Message, slot: Slot)
    requires slotSize >= 6 && 2 + |msg.data| < U32
    requires Carries(slotSize, msg, 0, slot)
    ensures DecodeU32(slot.data) == 2 + |msg.data|
    ensures DecodeU16(slot.data[4..]) == msg.id
    ensures slot.data[6..6 + Min(|msg.data|, slotSize - 6)] == msg.data[..Min(|msg.data|, slotSize - 6)]
    ensures !BadStart(slotSize, slot)
  {
    hide EncodeU16, EncodeU32, DecodeU16, DecodeU32;
    var s := Slice(slotSize, msg, 0);
    var v := 2 + |msg.data|;
    NeedBounds(slotSize, |msg.data|);
    assert slot.data == s + slot.data[|s|..];
    assert slot.data == EncodeU32(v) + slot.data[4..];
    U32RoundTrip(v, slot.data[4..]);
    assert slot.data[4..] == EncodeU16(msg.id) + slot.data[6..];
    U16RoundTrip(msg.id, slot.data[6..]);
    var n := Min(|msg.data|, slotSize - 6);
    assert slot.data[..6 + n] == s;
    assert slot.data[6..6 + n] == s[6..];
  }

  lemma AbsorbFirst(slotSize: nat, msg: Message, a: Assembly, slot: Slot)
    requires slotSize >= 6 && 2 + |msg.data| < U32
    requires Carries(slotSize, msg, 0, slot) && a.count == 0 && a.done == 0
    ensures !BadStart(slotSize, slot)
    ensures Partial(slotSize, msg, 1, Absorb(slotSize, a, slot))
  {
    HeaderDecodes(slotSize, msg, slot);
    assert Offset(slotSize, |msg.data|, 1) == Min(|msg.data|, slotSize - 6);
  }

  lemma AbsorbNext(slotSize: nat, msg: Message, k: nat, a: Assembly, slot: Slot)
    requires slotSize >= 6 && 1 <= k < Need(slotSize, |msg.data|)
    requires Carries(slotSize, msg, k, slot) && Partial(slotSize, msg, k, a)
    ensures a.count != 0 && slot.id == a.done
    ensures Partial(slotSize, msg, k + 1, Absorb(slotSize, a, slot))
  {
    NeedBounds(slotSize, |msg.data|);
    LoopRunsNeedTimes(slotSize, |msg.data|, k);
    var len := |msg.data|;
    var n := Copied(slotSize, len, false, a.idx);
    assert Offset(slotSize, len, k + 1) == a.idx + n;
    assert n == Min(|a.buf| - a.idx, slotSize) > 0;
    assert slot.data[..n] == msg.data[a.idx..a.idx + n];
    var b := Absorb(slotSize, a, slot);
    assert b.buf[..b.idx] == a.buf[..a.idx] + slot.data[..n];
    assert msg.data[..b.idx] == msg.data[..a.idx] + msg.data[a.idx..a.idx + n];
  }

  lemma PartialComplete(slotSize: nat, msg: Message, a: Assembly)
    requires slotSize >= 6
    requires Partial(slotSize, msg, Need(slotSize, |msg.data|), a)
    ensures a.buf == msg.data && a.id == msg.id && a.idx == |msg.data| && a.done == a.count
  {
    LoopRunsNeedTimes(slotSize, |msg.data|, a.done);
    assert a.buf[..a.idx] == a.buf && msg.data[..a.idx] == msg.data;
  }

  function AbsorbAll(slotSize: nat, a: Assembly, slots: seq<Slot>): Assembly
    requires slotSize >= 6
    requires forall i :: 0 <= i < |slots| ==> |slots[i].data| == slotSize
    decreases |slots|
  {
    if slots == [] then a
    else Absorb(slotSize, AbsorbAll(slotSize, a, slots[..|slots| - 1]), slots[|slots| - 1])
  }

  /** Reassembly undoes slicing, whatever the slots held before and whatever follows the pieces. */
  lemma {:induction false} ReassembleUndoesSlice(slotSize: nat, msg: Message, slots: seq<Slot>)
    requires slotSize >= 6 && 2 + |msg.data| < U32
    requires 1 <= |slots| <= Need(slotSize, |msg.data|)
    requires forall k :: 0 <= k < |slots| ==> |slots[k].data| == slotSize && Carries(slotSize, msg, k, slots[k])
    ensures Partial(slotSize, msg, |slots|, AbsorbAll(slotSize, NOTHING, slots))
    ensures |slots| == Need(slotSize, |msg.data|) ==>
              var a := AbsorbAll(slotSize, NOTHING, slots);
              a.buf == msg.data && a.id == msg.id && a.idx == |msg.data|
    decreases |slots|
  {
    hide Absorb;
    var k := |slots| - 1;
    if k == 0 {
      assert AbsorbAll(slotSize, NOTHING, slots[..0]) == NOTHING;
      AbsorbFirst(slotSize, msg, NOTHING, slots[0]);
    } else {
      ReassembleUndoesSlice(slotSize, msg, slots[..k]);
      AbsorbNext(slotSize, msg, k, AbsorbAll(slotSize, NOTHING, slots[..k]), slots[k]);
    }
    assert Partial(slotSize, msg, |slots|, AbsorbAll(slotSize, NOTHING, slots));
    if |slots| == Need(slotSize, |msg.data|) {
      PartialComplete(slotSize, msg, AbsorbAll(slotSize, NOTHING, slots));
    }
  }
}
