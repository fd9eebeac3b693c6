/**
 * The ALLOCATE and RELEASE messages between the processes and the daemon: built through a moving position, parsed
 * from any bytes.
 */
module ControlMessages {
  import opened Bytes
  import opened Options

  const SUB_ID_ALLOCATE: u16 := 0
  const SUB_ID_RELEASE: u16 := 1
  const INVALID_LOGIC: nat := 4
  const ROLE_SENDER: byte := 0
  const ROLE_RECEIVER: byte := 1
  const NO_INDEX: byte := 0xFF
  const BUFFER: nat := 512

  datatype Allocate = Allocate(logic: byte, role: byte, slotSize: u32, slotCount: u32, name: seq<byte>, index: byte)

  datatype Release = Release(name: seq<byte>, logic: byte, force: byte)

  // ----- the formats -----

  /** The name length is cut to one byte. */
  function LengthByte(name: seq<byte>): byte {
    |name| % 0x100
  }

  function AllocateHead(p: Allocate): (s: seq<byte>)
    ensures |s| == 13 && s[2] == p.logic && s[3] == p.role && s[12] == LengthByte(p.name)
  {
    EncodeU16(SUB_ID_ALLOCATE) + [p.logic, p.role] + EncodeU32(p.slotSize) + EncodeU32(p.slotCount)
    + [LengthByte(p.name)]
  }

  /** A request; `index` is not part of it. */
  function EncodeAllocate(p: Allocate): seq<byte> {
    AllocateHead(p) + p.name
  }

  /** The daemon's answer to a receiver: the request with one more byte. */
  function EncodeReply(p: Allocate): seq<byte> {
    EncodeAllocate(p) + [p.index]
  }

  function EncodeRelease(p: Release): seq<byte> {
    EncodeU16(SUB_ID_RELEASE) + [LengthByte(p.name)] + p.name + [p.logic, p.force]
  }

  function ParseAllocate(data: seq<byte>): Option<Allocate> {
    if |data| < 13 then None
    else
      var n: nat := data[12];
      if |data| < 13 + n then None
      else
        var index := if data[3] == ROLE_RECEIVER && |data| > 13 + n then data[13 + n] else NO_INDEX;
        if data[2] >= INVALID_LOGIC || (data[3] != ROLE_SENDER && data[3] != ROLE_RECEIVER) then None
        else Some(Allocate(data[2], data[3], DecodeU32(data[4..]), DecodeU32(data[8..]), data[13..13 + n], index))
  }

  function ParseRelease(data: seq<byte>): Option<Release> {
    if |data| < 3 then None
    else
      var n: nat := data[2];
      if |data| < 5 + n then None
      else if data[3 + n] >= INVALID_LOGIC then None
      else Some(Release(data[3..3 + n], data[3 + n], data[4 + n]))
  }

  // ----- the code -----

  /** Copies `s` to position `at` of the buffer and moves on; nothing is promised of a write that leaves the buffer. */
  method Append(buf: array<byte>, at: nat, s: seq<byte>) returns (next: Option<nat>)
    requires at <= buf.Length
    modifies buf
    ensures next.Some? <==> at + |s| <= buf.Length
    ensures next.Some? ==> next.value == at + |s| && buf[..next.value] == old(buf[..at]) + s
  {
    var i := 0;
    while i < |s| && at + i < buf.Length
      invariant i <= |s| && at + i <= buf.Length && buf[..at + i] == old(buf[..at]) + s[..i]
    {
      buf[at + i] := s[i];
      i := i + 1;
    }
    if i < |s| {
      return None;
    }
    assert s[..i] == s;
    return Some(at + i);
  }

  lemma HeadInPieces(p: Allocate)
    ensures AllocateHead(p) == EncodeU16(SUB_ID_ALLOCATE) + [p.logic] + [p.role] + EncodeU32(p.slotSize)
                               + EncodeU32(p.slotCount) + [LengthByte(p.name)]
  {
    assert [p.logic] + [p.role] == [p.logic, p.role];
  }

  /** RequestAllocateShm's payload: its writes stay inside the 512-byte buffer exactly if the name leaves room. */
  method BuildAllocate(p: Allocate) returns (data: Option<seq<byte>>)
    ensures data == if 13 + |p.name| <= BUFFER then Some(EncodeAllocate(p)) else None
  {
    hide EncodeU16, EncodeU32, AllocateHead;
    var buf := new byte[BUFFER](_ => 0);
    var cur := Append(buf, 0, EncodeU16(SUB_ID_ALLOCATE));
    cur := Append(buf, cur.value, [p.logic]);
    cur := Append(buf, cur.value, [p.role]);
    cur := Append(buf, cur.value, EncodeU32(p.slotSize));
    cur := Append(buf, cur.value, EncodeU32(p.slotCount));
    cur := Append(buf, cur.value, [LengthByte(p.name)]);
    HeadInPieces(p);
    assert buf[..cur.value] == AllocateHead(p);
    cur := Append(buf, cur.value, p.name);
    if cur.None? {
      return None;
    }
    return Some(buf[..cur.value]);
  }

  method BuildRelease(p: Release) returns (data: Option<seq<byte>>)
    ensures data == if 5 + |p.name| <= BUFFER then Some(EncodeRelease(p)) else None
  {
    hide EncodeU16;
    var buf := new byte[BUFFER](_ => 0);
    var cur := Append(buf, 0, EncodeU16(SUB_ID_RELEASE));
    cur := Append(buf, cur.value, [LengthByte(p.name)]);
    cur := Append(buf, cur.value, p.name);
    if cur.Some? {
      cur := Append(buf, cur.value, [p.logic]);
    }
    if cur.Some? {
      cur := Append(buf, cur.value, [p.force]);
    }
    if cur.None? {
      return None;
    }
    assert buf[..cur.value] == EncodeRelease(p);
    return Some(buf[..cur.value]);
  }

  /** Every access lies inside `data`, whatever the bytes are. */
  method ParseAllocateShm(data: seq<byte>) returns (r: Option<Allocate>)
    ensures r == ParseAllocate(data)
  {
    hide DecodeU32;
    if |data| < 13 {
      return None;
    }
    var n: nat := data[12];
    if |data| < 13 + n {
      return None;
    }
    var out := Allocate(data[2], data[3], DecodeU32(data[4..]), DecodeU32(data[8..]), data[13..13 + n], NO_INDEX);
    if out.role == ROLE_RECEIVER && |data| > 13 + n {
      out := out.(index := data[13 + n]);
    }
    if out.logic >= INVALID_LOGIC || (out.role != ROLE_SENDER && out.role != ROLE_RECEIVER) {
      return None;
    }
    return Some(out);
  }

  method ParseReleaseShm(data: seq<byte>) returns (r: Option<Release>)
    ensures r == ParseRelease(data)
  {
    if |data| < 3 {
      return None;
    }
    var n: nat := data[2];
    if |data| < 5 + n {
      return None;
    }
    var out := Release(data[3..3 + n], data[3 + n], data[4 + n]);
    if out.logic >= INVALID_LOGIC {
      return None;
    }
    return Some(out);
  }

  /** The request byte by byte: little-endian, 13 bytes before the name. */
  lemma AllocateLayout(p: Allocate)
    ensures var d := EncodeReply(p);
            && |d| == 14 + |p.name| && EncodeAllocate(p) == d[..13 + |p.name|]
            && d[0] == 0 && d[1] == 0 && d[2] == p.logic && d[3] == p.role
            && d[4] == p.slotSize % 0x100 && d[5] == p.slotSize / 0x100 % 0x100
            && d[6] == p.slotSize / 0x1_0000 % 0x100 && d[7] == p.slotSize / 0x100_0000 % 0x100
            && d[8] == p.slotCount % 0x100 && d[9] == p.slotCount / 0x100 % 0x100
            && d[10] == p.slotCount / 0x1_0000 % 0x100 && d[11] == p.slotCount / 0x100_0000 % 0x100
            && d[12] == |p.name| % 0x100 && d[13..13 + |p.name|] == p.name && d[13 + |p.name|] == p.index
  {
    assert EncodeReply(p)[..13 + |p.name|] == EncodeAllocate(p);
  }

  lemma ReleaseLayout(p: Release)
    ensures var d := EncodeRelease(p);
            && |d| == 5 + |p.name| && d[0] == 1 && d[1] == 0 && d[2] == |p.name| % 0x100
            && d[3..3 + |p.name|] == p.name && d[3 + |p.name|] == p.logic && d[4 + |p.name|] == p.force
  {
  }

  // ----- round trips -----

  predicate RoleOk(role: byte) {
    role == ROLE_SENDER || role == ROLE_RECEIVER
  }

  lemma HeadDecodes(p: Allocate, rest: seq<byte>)
    ensures var data := AllocateHead(p) + rest;
            && |data| == 13 + |rest| && data[2] == p.logic && data[3] == p.role && data[12] == LengthByte(p.name)
            && DecodeU32(data[4..]) == p.slotSize && DecodeU32(data[8..]) == p.slotCount && data[13..] == rest
  {
    hide EncodeU32, DecodeU32;
    var data := AllocateHead(p) + rest;
    var tail := EncodeU32(p.slotCount) + [LengthByte(p.name)] + rest;
    assert data[4..] == EncodeU32(p.slotSize) + tail;
    U32RoundTrip(p.slotSize, tail);
    assert data[8..] == EncodeU32(p.slotCount) + ([LengthByte(p.name)] + rest);
    U32RoundTrip(p.slotCount, [LengthByte(p.name)] + rest);
  }

  /** A request comes back field for field exactly if its name fits the one-byte length and the ids are valid. */
  lemma AllocateRoundTrip(p: Allocate)
    requires p.index == NO_INDEX
    ensures ParseAllocate(EncodeAllocate(p)) == Some(p) <==>
                  |p.name| <= 255 && p.logic < INVALID_LOGIC && RoleOk(p.role)
  {
    hide AllocateHead, DecodeU32;
    HeadDecodes(p, p.name);
    var n := LengthByte(p.name);
    var data := EncodeAllocate(p);
    assert data[13..13 + n] == p.name[..n];
    if |p.name| <= 255 {
      assert p.name[..n] == p.name;
    } else {
      assert |p.name[..n]| != |p.name|;
    }
  }

  /** A receiver's answer gives its index as well. */
  lemma ReplyRoundTrip(p: Allocate)
    requires |p.name| <= 255 && p.logic < INVALID_LOGIC && p.role == ROLE_RECEIVER
    ensures ParseAllocate(EncodeReply(p)) == Some(p)
  {
    hide AllocateHead, DecodeU32;
    var rest := p.name + [p.index];
    HeadDecodes(p, rest);
    assert EncodeReply(p) == AllocateHead(p) + rest;
    var data := EncodeReply(p);
    assert data[13..13 + |p.name|] == rest[..|p.name|] == p.name;
    assert data[13 + |p.name|] == rest[|p.name|];
  }

  lemma DecodeLooksAhead(a: seq<byte>, b: seq<byte>)
    requires |a| >= 4 && |b| >= 4 && a[..4] == b[..4]
    ensures DecodeU32(a) == DecodeU32(b)
  {
    assert forall i :: 0 <= i < 4 ==> a[i] == a[..4][i] && b[i] == b[..4][i];
  }

  /** What is accepted is determined by the bytes up to the end of the name; a sender's request ignores all others. */
  lemma AllocateIgnoresTail(data: seq<byte>, tail: seq<byte>)
    requires ParseAllocate(data).Some?
    ensures var p, q := ParseAllocate(data), ParseAllocate(data + tail);
            q.Some? && q.value.(index := p.value.index) == p.value
            && (p.value.role == ROLE_SENDER || |data| > 13 + |p.value.name| ==> q == p)
  {
    var all := data + tail;
    var n: nat := data[12];
    assert all[13..13 + n] == data[13..13 + n];
    assert all[4..][..4] == data[4..][..4] && all[8..][..4] == data[8..][..4];
    DecodeLooksAhead(all[4..], data[4..]);
    DecodeLooksAhead(all[8..], data[8..]);
  }

  /** A RELEASE comes back field for field exactly if its name fits and the sender has a slot of its own. */
  lemma ReleaseRoundTrip(p: Release)
    ensures ParseRelease(EncodeRelease(p)) == Some(p) <==> |p.name| <= 255 && p.logic < INVALID_LOGIC
    ensures |p.name| <= 255 && p.logic >= INVALID_LOGIC ==> ParseRelease(EncodeRelease(p)) == None
  {
    var data, n := EncodeRelease(p), LengthByte(p.name);
    assert data[3..3 + n] == p.name[..n];
    if |p.name| <= 255 {
      assert p.name[..n] == p.name;
      assert data[3 + n] == p.logic && data[4 + n] == p.force;
    } else {
      assert |p.name[..n]| != |p.name|;
    }
  }

  /** A request that is accepted was one: encoded again it gives the bytes that were read, up to the index. */
  lemma ParsedAllocateWasEncoded(data: seq<byte>)
    requires ParseAllocate(data).Some? && data[..2] == EncodeU16(SUB_ID_ALLOCATE)
    ensures var p := ParseAllocate(data).value;
            && EncodeAllocate(p) == data[..13 + |p.name|] && p.logic < 4 && p.role <= 1
            && p.index == if p.role == 1 && |data| > 13 + |p.name| then data[13 + |p.name|] else 0xFF
  {
    hide EncodeU32, DecodeU32;
    var p := ParseAllocate(data).value;
    assert data[4..][..4] == data[4..8] && data[8..][..4] == data[8..12];
    U32Inverse(data[4..]);
    U32Inverse(data[8..]);
    assert data[..13 + |p.name|] == data[..2] + [data[2], data[3]] + data[4..8] + data[8..12] + [data[12]]
                                    + data[13..13 + |p.name|];
  }

  /** Parsing gives only messages that could have been sent: encoding them again gives the bytes that were read. */
  lemma ParsedReleaseWasEncoded(data: seq<byte>)
    requires ParseRelease(data).Some? && data[..2] == EncodeU16(SUB_ID_RELEASE)
    ensures var p := ParseRelease(data).value; EncodeRelease(p) == data[..5 + |p.name|]
  {
    var p := ParseRelease(data).value;
    var n := |p.name|;
    assert data[..5 + n] == data[..2] + [data[2]] + data[3..3 + n] + [data[3 + n], data[4 + n]];
  }
}
