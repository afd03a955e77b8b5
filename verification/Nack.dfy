/**
 * Generic NACK (section 6.2.1 of RFC 4585), both ends: what the jitter buffer
 * reports for a gap is what the video sender reads as missing.
 */
module Nack {
  import opened Words
  import opened JbufModel
  import opened JbufRun
  import opened JbufOrder

  const BLPSZ := 16

  /** Bit `i` of `x`. */
  predicate Bit(x: nat, i: nat)
    decreases i
  {
    if i == 0 then x % 2 == 1 else Bit(x / 2, i - 1)
  }

  /** Position `i` after the first missing number is asked for; position 0 always is. */
  predicate Asks(g: Gnack, i: nat) {
    i == 0 || (i <= BLPSZ && Bit(g.blp, i - 1))
  }

  /** The numbers that a NACK asks for. */
  ghost function Requested(g: Gnack): set<u16> {
    set i | 0 <= i <= BLPSZ && Asks(g, i) :: W16(g.pid + i)
  }

  /** `rtcp_nack_handler`'s table: the number at each asked position and 0 at the others. */
  function PidTable(g: Gnack): (t: seq<u16>)
    ensures |t| == BLPSZ + 1
  {
    seq(BLPSZ + 1, i requires 0 <= i <= BLPSZ => if Asks(g, i) then W16(g.pid + i) else 0)
  }

  lemma {:induction false} BitOfZero(i: nat)
    ensures !Bit(0, i)
    decreases i
  {
    if i > 0 {
      BitOfZero(i - 1);
    }
  }

  /** The loop that fills the table. */
  method FillPids(g: Gnack) returns (pids: array<u16>)
    ensures pids.Length == BLPSZ + 1
    ensures pids[..] == PidTable(g)
    ensures fresh(pids)
  {
    pids := new u16[BLPSZ + 1](_ => 0);
    pids[0] := g.pid;
    if g.blp != 0 {
      for i := 1 to BLPSZ + 1
        invariant pids[0] == g.pid
        invariant forall j :: 1 <= j < i ==> pids[j] == if Asks(g, j) then W16(g.pid + j) else 0
        invariant forall j :: i <= j <= BLPSZ ==> pids[j] == 0
      {
        if Bit(g.blp, i - 1) {
          pids[i] := W16(g.pid + i);
        }
      }
    } else {
      forall j | 1 <= j <= BLPSZ ensures !Asks(g, j) {
        BitOfZero(j - 1);
      }
    }
  }

  /** The mask of `k` low bits. */
  lemma {:induction false} BitOfMask(k: nat, i: nat)
    ensures Bit(Pow2(k) - 1, i) <==> i < k
    decreases k
  {
    if k == 0 {
      BitOfZero(i);
    } else if i > 0 {
      BitOfMask(k - 1, i - 1);
      assert (Pow2(k) - 1) / 2 == Pow2(k - 1) - 1;
    }
  }

  lemma {:induction false} Pow2Monotone(k: nat, m: nat)
    requires k <= m
    ensures Pow2(k) <= Pow2(m)
  {
    if k < m {
      Pow2Monotone(k, m - 1);
    }
  }

  lemma Pow2Of16()
    ensures Pow2(16) == 0x1_0000
  {
    assert Pow2(4) == 16;
    assert Pow2(8) == 256;
    assert Pow2(12) == 4096;
  }

  lemma MaskFits(k: nat)
    requires k <= 16
    ensures W16(Pow2(k) - 1) == Pow2(k) - 1
  {
    Pow2Monotone(k, 16);
    Pow2Of16();
  }

  /** `send_gnack` asks for its first number and the `blpPkts` after it, 16 at most. */
  lemma MakeGnackAsks(pid: u16, blpPkts: nat, i: nat)
    requires i <= BLPSZ
    ensures Asks(MakeGnack(pid, blpPkts), i) <==> i <= blpPkts
  {
    var k := if blpPkts > 16 then 16 else blpPkts;
    MaskFits(k);
    if i > 0 {
      BitOfMask(k, i - 1);
      BitOfZero(i - 1);
    }
  }

  function After(last: int, j: int): u16 { W16(last + j) }

  /** The numbers after `last`, up to the `k`-th. */
  ghost function FirstAfter(last: int, k: int): set<u16> {
    set j | 1 <= j <= k :: After(last, j)
  }

  /** Position `i` of the NACK for the numbers after `last` is their number `i + 1`. */
  lemma GnackPosition(last: int, blpPkts: nat, i: nat)
    requires i <= BLPSZ
    ensures var g := MakeGnack(W16(last + 1), blpPkts);
      W16(g.pid + i) == After(last, i + 1) && (Asks(g, i) <==> i + 1 <= Min(blpPkts + 1, BLPSZ + 1))
  {
    MakeGnackAsks(W16(last + 1), blpPkts, i);
    W16Absorb(last + 1, i);
  }

  /** What `send_gnack` asks for, as a set of numbers. */
  lemma MakeGnackDenotes(last: int, blpPkts: nat)
    ensures Requested(MakeGnack(W16(last + 1), blpPkts)) == FirstAfter(last, Min(blpPkts + 1, BLPSZ + 1))
  {
    var g := MakeGnack(W16(last + 1), blpPkts);
    var missing := FirstAfter(last, Min(blpPkts + 1, BLPSZ + 1));
    forall v | v in Requested(g) ensures v in missing {
      var i :| 0 <= i <= BLPSZ && Asks(g, i) && v == W16(g.pid + i);
      GnackPosition(last, blpPkts, i);
    }
    forall v | v in missing ensures v in Requested(g) {
      var j :| 1 <= j <= Min(blpPkts + 1, BLPSZ + 1) && v == After(last, j);
      GnackPosition(last, blpPkts, j - 1);
    }
  }

  /**
   * The two ends agree: for a packet that is `gap` numbers behind the tail, up
   * to half a cycle, a NACK is sent if and only if some number is missing and
   * the gap is not exactly half a cycle; and it asks for all missing numbers,
   * or for the first 17 of them, across the wrap of the 16-bit numbers.
   */
  lemma GapNackExact(last: int, gap: int)
    requires 1 <= gap <= HALF
    ensures var g := GapNack(true, W16(last), W16(last + gap));
      && (g.Some? <==> 2 <= gap < HALF)
      && (g.Some? ==> Requested(g.value) == FirstAfter(last, Min(gap - 1, BLPSZ + 1)))
  {
    GapResidue(last, gap);
    if 2 <= gap < HALF {
      MakeGnackDenotes(last, gap - 2);
    }
  }

  lemma GapResidue(last: int, gap: int)
    requires 1 <= gap <= HALF
    ensures S16(W16(last + gap) - W16(last)) == if gap == HALF then -HALF else gap
    ensures W16(W16(last) + 1) == W16(last + 1)
  {
    W16Absorb(last, 1);
  }

  /** The packets that a put finds when it looks for a place. */
  function Found(s: State<int>): seq<Packet<int>>
    requires Sized(s)
  {
    Alloc(CountPut(s)).0.packets
  }

  /** What a put reports depends on the place that it finds. */
  lemma AcceptReports(s: State<int>, h: Header<int>, m: Option<Mem>, c: Clock)
    requires Sized(s) && s.cfg.srate > 0
    ensures var ps := Found(s);
      Accept(s, h, m, c).gnack ==
        if ps != [] && Locate(ps, h.seqno, |ps|) == At(|ps|)
        then GapNack(s.cfg.gnack, ps[|ps| - 1].hdr.seqno, h.seqno) else None
  {
  }

  /** Behind the tail of `ps`, exactly the numbers missing before `u` are reported, or the first 17 of them. */
  ghost predicate Reports(g: Option<Gnack>, ps: seq<Packet<int>>, u: int) {
    if ps == [] then g == None else
    var tail := ps[|ps| - 1].hdr.x;
    && (g.Some? <==> tail + 1 < u)
    && (g.Some? ==> Requested(g.value) == FirstAfter(tail, Min(u - tail - 1, BLPSZ + 1)))
  }

  lemma TailReports(ps: seq<Packet<int>>, base: int, u: int)
    requires Sorted(ps, base) && base < u <= base + HALF
    ensures Reports(if ps != [] && Locate(ps, W16(u), |ps|) == At(|ps|)
                    then GapNack(true, ps[|ps| - 1].hdr.seqno, W16(u)) else None, ps, u)
  {
    if ps != [] {
      var tail := ps[|ps| - 1].hdr.x;
      SeqLessUnwrapped(tail, u);
      LocateSorted(ps, base, u, |ps|);
      if tail < u {
        GapNackExact(tail, u - tail);
      }
    }
  }

  lemma AcceptReportsGap(s: State<int>, t: Trail, h: Header<int>, m: Option<Mem>, c: Clock)
    requires Sized(s) && s.cfg.srate > 0 && s.cfg.gnack && Ordered(s, t)
    requires W16(h.x) == h.seqno && t.base < h.x <= t.base + HALF
    ensures Reports(Accept(s, h, m, c).gnack, Found(s), h.x)
  {
    AcceptReports(s, h, m, c);
    TailReports(Found(s), t.base, h.x);
  }

  lemma NothingToReport(s: State<int>, h: Header<int>, m: Option<Mem>, c: Clock)
    requires Sized(s) && s.cfg.srate > 0 && (s.packets == [] || !s.cfg.gnack)
    ensures Accept(s, h, m, c).gnack == None
  {
    AcceptReports(s, h, m, c);
  }

  /**
   * What `jbuf_put` reports in a fair run, where a gap of half a cycle cannot
   * occur: nothing if NACKs are off, the packet is refused or late, or the
   * buffer was emptied for a new source; otherwise exactly the numbers that the
   * packet leaves missing behind the tail, or the first 17 of them.
   */
  lemma PutReportsGap(s: State<int>, t: Trail, e: Event)
    requires Sized(s) && Ordered(s, t) && e.op.Put? && Fair(s, t, e)
    ensures var h, g := e.op.h, PutStep(s, e.op.h, e.op.m, e.op.c).gnack;
      if !s.cfg.gnack || h.tsArrive == 0 || s.cfg.srate == 0 || Resyncs(s, e.op) || h.x <= t.base then g == None
      else Reports(g, Found(s), h.x)
  {
    var h := e.op.h;
    if h.tsArrive != 0 && s.cfg.srate != 0 {
      FreeAllSize(s.packets);
      var s1 := Resynced(s, h).(ssrc := h.ssrc);
      if !s.cfg.gnack || Resyncs(s, e.op) {
        NothingToReport(s1, h, e.op.m, e.op.c);
      } else {
        LateFilterExact(s1, t, h.x);
        if t.base < h.x {
          AcceptReportsGap(s1, t, h, e.op.m, e.op.c);
          assert Found(s1) == Found(s);
        }
      }
    }
  }
}
