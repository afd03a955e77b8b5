/**
 * Bandwidth-efficient packing of AMR frames (modules/amr/amr.c, section 4.3 of
 * RFC 4867): the frame is shifted by six bits in place to make room for the
 * mode request and a shorter header.
 */
module Amr {

  /** The octet shifted in by the loop of `pack_be`: the low bits of `a`, then the high bits of `b`. */
  function Shift6(a: bv8, b: bv8): bv8 { (a << 6) | (b >> 2) }
  function Shift2(a: bv8, b: bv8): bv8 { (a << 2) | (b >> 6) }

  /** The frame header octet: F, frame type and quality. */
  function Another(h: bv8): bv8 { (h >> 7) & 1 }
  function Type(h: bv8): bv8 { (h >> 3) & 15 }
  function Quality(h: bv8): bv8 { (h >> 2) & 1 }

  /** Octet `i` of the packed frame; the last one, beyond the frame's length, is not sent. */
  function PackedAt(frame: seq<bv8>, i: nat): bv8
    requires frame != [] && i <= |frame|
  {
    var h := frame[0];
    var next := if i < |frame| then frame[i] else 0;
    if i == 0 then 0xF0 | (Another(h) << 3) | (Type(h) >> 1)
    else if i == 1 then Shift6(0, next) | ((Type(h) << 7) | (Quality(h) << 6))
    else Shift6(frame[i-1], next)
  }

  /** What is sent for a frame. */
  function Pack(frame: seq<bv8>): (r: seq<bv8>)
    requires frame != []
    ensures |r| == |frame|
  {
    seq(|frame|, i requires 0 <= i < |frame| => PackedAt(frame, i))
  }

  /** Octet `i` of what `unpack_be` makes of a received payload. */
  function UnpackedAt(p: seq<bv8>, i: nat): bv8
    requires |p| >= 2 && i < |p|
  {
    if i == 0 then UnpackedHeader(p[0], p[1])
    else if i < |p| - 1 then Shift2(p[i], p[i+1])
    else p[i] << 2
  }

  function UnpackedHeader(a: bv8, b: bv8): bv8 {
    (((a >> 3) & 1) << 7) | ((((a << 1) | (b >> 7)) & 15) << 3) | (((b >> 6) & 1) << 2)
  }

  function Unpack(p: seq<bv8>): (r: seq<bv8>)
    requires |p| >= 2
    ensures |r| == |p|
  {
    seq(|p|, i requires 0 <= i < |p| => UnpackedAt(p, i))
  }

  function ClearedAt(frame: seq<bv8>, i: nat): bv8
    requires i < |frame|
  {
    if i == 0 || i == |frame| - 1 then frame[i] & 0xFC else frame[i]
  }

  /** A frame without the two padding bits of its header and the last two bits of its last octet. */
  function Cleared(frame: seq<bv8>): (r: seq<bv8>)
    ensures |r| == |frame|
  {
    seq(|frame|, i requires 0 <= i < |frame| => ClearedAt(frame, i))
  }

  /** Unpacking undoes packing, but for four bits that packing drops. */
  lemma RoundTrip(frame: seq<bv8>)
    requires |frame| >= 2
    ensures Unpack(Pack(frame)) == Cleared(frame)
  {
  }

  // ---------------------------------------------------------------- bit order

  /** Bit `r` of an octet, the most significant one first. */
  predicate OctetBit(b: bv8, r: nat)
    requires r < 8
  {
    match r
    case 0 => b & 0x80 != 0
    case 1 => b & 0x40 != 0
    case 2 => b & 0x20 != 0
    case 3 => b & 0x10 != 0
    case 4 => b & 0x08 != 0
    case 5 => b & 0x04 != 0
    case 6 => b & 0x02 != 0
    case _ => b & 0x01 != 0
  }

  predicate BitAt(s: seq<bv8>, k: nat)
    requires k < 8 * |s|
  {
    OctetBit(s[k / 8], k % 8)
  }

  /**
   * The packed bits in order: the mode request 15, then F, frame type and
   * quality, then all speech bits, for every bit that is sent.
   */
  lemma PackedBits(frame: seq<bv8>, k: nat)
    requires |frame| >= 2 && k < 8 * |frame|
    ensures BitAt(Pack(frame), k) ==
      if k < 4 then true else if k < 10 then BitAt(frame, k - 4) else BitAt(frame, k - 2)
  {
    var q, r := k / 8, k % 8;
    assert k >= 10 ==> k - 2 == if r < 2 then 8 * (q - 1) + (r + 6) else 8 * q + (r - 2);
  }

  // ---------------------------------------------------------------- the loops

  /** Octet `j` after the shift of `pack_be`, whose header octet was cleared. */
  function Shifted(frame: seq<bv8>, j: nat): bv8
    requires 1 <= j <= |frame|
  {
    Shift6(if j == 1 then 0 else frame[j-1], if j < |frame| then frame[j] else 0)
  }

  /** The shift loop of `pack_be`; no octet is read again once it is overwritten. */
  method ShiftForward(buf: array<bv8>, len: nat, ghost frame: seq<bv8>)
    requires 1 <= len == |frame| && len + 2 <= buf.Length && buf[1] == buf[len+1] == 0
    requires forall j :: 2 <= j <= len ==> buf[j] == frame[j-1]
    modifies buf
    ensures forall j :: 1 <= j <= len ==> buf[j] == Shifted(frame, j)
    ensures forall j :: len + 2 <= j < buf.Length ==> buf[j] == old(buf[j])
  {
    for i := 1 to len + 1
      invariant forall j :: 1 <= j < i ==> buf[j] == Shifted(frame, j)
      invariant buf[i] == if i == 1 || i == len + 1 then 0 else frame[i-1]
      invariant forall j :: i < j <= len ==> buf[j] == frame[j-1]
      invariant buf[len+1] == 0
      invariant forall j :: len + 2 <= j < buf.Length ==> buf[j] == old(buf[j])
    {
      buf[i] := (buf[i] << 6) | (buf[i+1] >> 2);
    }
  }

  lemma PackedShifted(frame: seq<bv8>, j: nat)
    requires 2 <= j <= |frame|
    ensures PackedAt(frame, j) == Shifted(frame, j)
  {
  }

  /** `pack_be`: the frame is in buf[1 .. len] and is replaced in place. */
  method PackBe(buf: array<bv8>, len: nat)
    requires 1 <= len && len + 2 <= buf.Length
    modifies buf
    ensures var frame := old(buf[1..len+1]);
      && buf[..len] == Pack(frame)
      && buf[len] == PackedAt(frame, len)
    ensures forall j :: len + 2 <= j < buf.Length ==> buf[j] == old(buf[j])
  {
    ghost var frame := buf[1..len+1];
    var another := (buf[1] >> 7) & 1;
    var ty := (buf[1] >> 3) & 15;
    var quality := (buf[1] >> 2) & 1;
    buf[0] := 0;
    buf[1] := 0;
    buf[len+1] := 0;
    ShiftForward(buf, len, frame);
    buf[1] := buf[1] | ((ty << 7) | (quality << 6));
    buf[0] := (15 << 4) | (another << 3) | (ty >> 1);
    forall j | 0 <= j <= len ensures buf[j] == PackedAt(frame, j) {
      if j >= 2 {
        PackedShifted(frame, j);
      }
    }
  }

  /** The shift loop of `unpack_be` and its last octet. */
  method ShiftBack(temp: array<bv8>, buf: array<bv8>, len: nat, ghost p: seq<bv8>)
    requires 1 <= len <= temp.Length && len <= buf.Length && temp != buf && p == buf[..len]
    modifies temp
    ensures len > 1 ==> forall j :: 1 <= j < len ==> temp[j] == UnpackedAt(p, j)
    ensures forall j :: len <= j < temp.Length ==> temp[j] == old(temp[j])
  {
    for i := 1 to if len == 1 then 1 else len - 1
      invariant len > 1 ==> forall j :: 1 <= j < i ==> temp[j] == UnpackedAt(p, j)
      invariant forall j :: len <= j < temp.Length ==> temp[j] == old(temp[j])
    {
      temp[i] := (buf[i] << 2) | (buf[i+1] >> 6);
    }
    temp[len-1] := buf[len-1] << 2;
  }

  /** `unpack_be`; of a payload of one octet, the header is completed with the octet behind it. */
  method UnpackBe(temp: array<bv8>, buf: array<bv8>, len: nat)
    requires 1 <= len <= temp.Length && len <= buf.Length && 2 <= buf.Length && temp != buf
    modifies temp
    ensures temp[..len] == if len == 1 then [UnpackedHeader(buf[0], buf[1])] else Unpack(buf[..len])
    ensures forall j :: len <= j < temp.Length ==> temp[j] == old(temp[j])
  {
    var another := (buf[0] >> 3) & 1;
    var ty := ((buf[0] << 1) | (buf[1] >> 7)) & 15;
    var quality := (buf[1] >> 6) & 1;
    ShiftBack(temp, buf, len, buf[..len]);
    temp[0] := (another << 7) | (ty << 3) | (quality << 2);
  }
}
