/**
 * Playout times in the jitter buffer.  A header's `x` is here its extended
 * timestamp, the unbounded sender time that the 32-bit one is a residue of.  As
 * long as the offsets between sender and receiver clock stay in a window shorter
 * than 2^31, playout times are neither too early nor too late.
 */
module JbufTiming {
  import opened Words
  import opened JbufModel
  import opened JbufRun

  /** All offsets (arrival minus sender time) of a run lie in [lo, lo + spread]. */
  datatype Window = Window(lo: int, spread: nat)

  // ---------------------------------------------------------------- serial minimum

  /**
   * `offset_min` computes the minimum of two offsets at most 2^31 apart if and
   * only if the second is not exactly 2^31 below the first.
   */
  lemma OffsetMinExact(a: int, b: int)
    requires -0x8000_0000 <= a - b <= 0x8000_0000
    ensures OffsetMin(W32(a), W32(b)) == W32(Min(a, b)) <==> a - b < 0x8000_0000
  {
    assert W32(W32(a) - W32(b)) == W32(a - b);
  }

  lemma WindowResidue(o: int, w: Window)
    requires w.lo <= o <= w.lo + w.spread && w.spread < 0x1_0000_0000
    ensures W32(W32(o) - w.lo) == o - w.lo
  {
    W32Absorb(o, -w.lo);
  }

  /** A stored offset is unset (0) or the residue of one in the window. */
  predicate InWindow(o: u32, w: Window) { o == 0 || W32(o - w.lo) <= w.spread }

  /** The running minimum moves to the new offset or stays below it, inside the window. */
  lemma OffsetStepInWindow(offset: u32, o: int, w: Window)
    requires InWindow(offset, w) && w.lo <= o <= w.lo + w.spread && w.spread < 0x8000_0000
    ensures W32(OffsetStep(offset, W32(o)) - w.lo) <= o - w.lo
    ensures offset != 0 ==>
      W32(OffsetStep(offset, W32(o)) - w.lo) == Min(W32(offset - w.lo), o - w.lo)
  {
    if offset != 0 {
      var a := w.lo + W32(offset - w.lo);
      assert W32(a) == offset;
      OffsetMinExact(a, o);
      WindowResidue(Min(a, o), w);
    } else {
      WindowResidue(o, w);
    }
  }

  // ---------------------------------------------------------------- playout times

  /** The configured latencies are ordered and fit half a word. */
  predicate SaneLatency(cfg: Config) {
    cfg.mind <= cfg.maxd && cfg.srate / 1000 * cfg.maxd < 0x8000_0000
  }

  lemma ProductsOrdered(k: nat, a: nat, b: nat)
    requires a <= b
    ensures 0 <= k * a <= k * b
  {
  }

  lemma LatencyValues(cfg: Config)
    requires SaneLatency(cfg)
    ensures MinLat(cfg) == cfg.srate / 1000 * cfg.mind
    ensures MaxLat(cfg) == cfg.srate / 1000 * cfg.maxd
    ensures MinLat(cfg) <= MaxLat(cfg)
  {
    var k := cfg.srate / 1000;
    ProductsOrdered(k, cfg.mind, cfg.maxd);
    W32Residue(k * cfg.mind, k * cfg.mind, 0);
    W32Residue(k * cfg.maxd, k * cfg.maxd, 0);
  }

  lemma LatencyFits(cfg: Config)
    requires SaneLatency(cfg)
    ensures MinLat(cfg) <= MaxLat(cfg) < 0x8000_0000
  {
    LatencyValues(cfg);
  }

  /** The header's wire timestamp and offset are what its extended timestamp says. */
  predicate Consistent(h: Header<int>, w: Window) {
    W32(h.x) == h.ts && w.lo <= h.tsArrive - h.x <= w.lo + w.spread
  }

  /**
   * The playout time lies between the earliest offset plus the minimum latency
   * and the arrival plus the maximum latency.  Both ends are unbounded times
   * less than 2^32 apart, so the residue says it without ambiguity.
   */
  predicate OnTime(cfg: Config, h: Header<int>, playout: u32, w: Window) {
    var earliest := h.x + w.lo + MinLat(cfg);
    var latest := h.tsArrive + MaxLat(cfg);
    W32(playout - earliest) <= latest - earliest
  }

  /** On time means: the playout time is the residue of exactly one time in the interval. */
  lemma OnTimeMeans(cfg: Config, h: Header<int>, playout: u32, w: Window, time: int)
    requires SaneLatency(cfg) && Consistent(h, w) && w.spread < 0x8000_0000 && OnTime(cfg, h, playout, w)
    requires W32(time) == playout
    requires h.x + w.lo + MinLat(cfg) <= time < h.x + w.lo + MinLat(cfg) + 0x1_0000_0000
    ensures time <= h.tsArrive + MaxLat(cfg) < h.x + w.lo + MinLat(cfg) + 0x1_0000_0000
  {
    LatencyFits(cfg);
    var earliest := h.x + w.lo + MinLat(cfg);
    W32Absorb(time, -earliest);
    W32Residue(time - earliest, time - earliest, 0);
  }

  /** A packet as it should be in the buffer, `lastArrival` being the latest arrival so far. */
  predicate Punctual(cfg: Config, p: Packet<int>, w: Window, lastArrival: int) {
    Consistent(p.hdr, w) && p.hdr.tsArrive <= lastArrival && OnTime(cfg, p.hdr, p.playout, w)
  }

  predicate AllPunctual(cfg: Config, ps: seq<Packet<int>>, w: Window, lastArrival: int) {
    forall i :: 0 <= i < |ps| ==> Punctual(cfg, ps[i], w, lastArrival)
  }

  predicate Timed(s: State<int>, w: Window, lastArrival: int) {
    AllPunctual(s.cfg, s.packets, w, lastArrival) && InWindow(s.p.offset, w)
  }

  /** Arrivals do not go back, and the sender times in the buffer are less than 2^32 apart. */
  predicate Timely(s: State<int>, w: Window, lastArrival: int, op: Op<int>) {
    op.Put? && op.h.tsArrive != 0 ==>
      && Consistent(op.h, w)
      && lastArrival <= op.h.tsArrive
      && forall i :: 0 <= i < |s.packets| ==> Abs(op.h.x - s.packets[i].hdr.x) < 0x1_0000_0000
  }

  function ArrivalAfter(lastArrival: int, op: Op<int>): int {
    if op.Put? && op.h.tsArrive != 0 then op.h.tsArrive else lastArrival
  }

  lemma TransitIsOffset(h: Header<int>, w: Window)
    requires Consistent(h, w)
    ensures Transit(h) == W32(h.tsArrive - h.x)
  {
    var k := W32Quotient(h.x);
    var q := W32Quotient(h.tsArrive - h.x);
    W32Residue(h.tsArrive - h.ts, W32(h.tsArrive - h.x), k + q);
  }

  /** Equal wire timestamps less than a cycle apart are equal. */
  lemma SameFrame(x: int, y: int)
    requires W32(x) == W32(y) && Abs(x - y) < 0x1_0000_0000
    ensures x == y
  {
  }

  /** Measured from the earliest time, a fresh playout time is the excess of its offset and latency. */
  lemma FreshResidue(x: int, offset: u32, lat: u32, lo: int, minLat: u32)
    requires minLat <= lat && W32(offset - lo) + lat - minLat < 0x1_0000_0000
    ensures W32(W32(W32(W32(x) + offset) + lat) - (x + lo + minLat)) == W32(offset - lo) + lat - minLat
  {
    var k := W32Quotient(offset - lo);
    var q := W32Quotient(x);
    W32Absorb(W32(x) + offset, lat);
    W32Absorb(W32(x) + offset + lat, -(x + lo + minLat));
    W32Residue(W32(x) + offset + lat - (x + lo + minLat), W32(offset - lo) + lat - minLat, k - q);
  }

  lemma FreshInterval(x: int, arrive: int, offset: u32, lat: u32, lo: int, minLat: u32, maxLat: u32)
    requires minLat <= lat <= maxLat < 0x8000_0000 && W32(offset - lo) <= arrive - x - lo < 0x8000_0000
    ensures W32(W32(W32(W32(x) + offset) + lat) - (x + lo + minLat)) <= (arrive + maxLat) - (x + lo + minLat)
  {
    FreshResidue(x, offset, lat, lo, minLat);
  }

  /** A freshly computed playout time is on time. */
  lemma FreshOnTime(cfg: Config, h: Header<int>, offset: u32, lat: u32, w: Window)
    requires SaneLatency(cfg) && Consistent(h, w) && w.spread < 0x8000_0000
    requires W32(offset - w.lo) <= h.tsArrive - h.x - w.lo
    requires MinLat(cfg) <= lat <= MaxLat(cfg)
    ensures OnTime(cfg, h, W32(W32(h.ts + offset) + lat), w)
  {
    LatencyFits(cfg);
    FreshInterval(h.x, h.tsArrive, offset, lat, w.lo, MinLat(cfg), MaxLat(cfg));
  }

  /** The latency can be read back from a playout time. */
  lemma LatencyReadBack(base: int, lat: u32)
    ensures W32(W32(W32(base) + lat) - base) == lat
  {
    W32Absorb(base, lat);
    W32Absorb(base + lat, -base);
  }

  /**
   * `calc_playout_time` puts the packet on time: freshly computed, it plays at
   * its sender time plus the current minimum offset plus a latency between the
   * configured ones; copied from its predecessor, it is no later than a fresh one may be.
   */
  lemma PlayoutStepOnTime(s: State<int>, prev: Option<Packet<int>>, h: Header<int>, w: Window, lastArrival: int)
    requires s.cfg.srate > 0 && SaneLatency(s.cfg) && w.spread < 0x8000_0000
    requires Timed(s, w, lastArrival) && Consistent(h, w) && lastArrival <= h.tsArrive
    requires prev.Some? ==> prev.value in s.packets && Abs(h.x - prev.value.hdr.x) < 0x1_0000_0000
    ensures var r := PlayoutStep(s.cfg, s.p, s.stat, prev, h);
      && OnTime(s.cfg, h, r.2, w)
      && InWindow(r.0.offset, w)
      && (prev.None? || prev.value.hdr.ts != h.ts ==>
            && W32(r.0.offset - w.lo) <= h.tsArrive - h.x - w.lo
            && MinLat(s.cfg) <= W32(r.2 - (h.ts + r.0.offset)) <= MaxLat(s.cfg))
  {
    if prev.Some? && prev.value.hdr.ts == h.ts {
      assert Punctual(s.cfg, prev.value, w, lastArrival);
      SameFrame(h.x, prev.value.hdr.x);
      CopiedOnTime(s.cfg, prev.value, h, w);
      Copied(s.cfg, s.p, s.stat, prev, h);
    } else {
      NotCopied(s.cfg, s.p, s.stat, prev, h);
      var r := PlayoutStep(s.cfg, s.p, s.stat, prev, h);
      FreshPlayout(s.cfg, s.p, s.stat, h, w, r.0.offset, r.2);
    }
  }

  /** A packet of the same frame that comes later may copy the playout time. */
  lemma CopiedOnTime(cfg: Config, f: Packet<int>, h: Header<int>, w: Window)
    requires Punctual(cfg, f, w, h.tsArrive) && f.hdr.x == h.x
    ensures OnTime(cfg, h, f.playout, w)
  {
  }

  lemma Copied(cfg: Config, p: Playout, st: Stats, prev: Option<Packet<int>>, h: Header<int>)
    requires cfg.srate > 0 && prev.Some? && prev.value.hdr.ts == h.ts
    ensures PlayoutStep(cfg, p, st, prev, h) == (p, st, prev.value.playout)
  {
  }

  lemma NotCopied(cfg: Config, p: Playout, st: Stats, prev: Option<Packet<int>>, h: Header<int>)
    requires cfg.srate > 0 && (prev.None? || prev.value.hdr.ts != h.ts)
    ensures PlayoutStep(cfg, p, st, prev, h) == PlayoutStep(cfg, p, st, None, h)
  {
  }

  lemma FreshPlayout(cfg: Config, p: Playout, st: Stats, h: Header<int>, w: Window, after: u32, playout: u32)
    requires cfg.srate > 0 && SaneLatency(cfg) && w.spread < 0x8000_0000
    requires InWindow(p.offset, w) && Consistent(h, w)
    requires var r := PlayoutStep(cfg, p, st, None, h); after == r.0.offset && playout == r.2
    ensures OnTime(cfg, h, playout, w)
    ensures InWindow(after, w)
    ensures W32(after - w.lo) <= h.tsArrive - h.x - w.lo
    ensures MinLat(cfg) <= W32(playout - (h.ts + after)) <= MaxLat(cfg)
  {
    var lat := FreshShape(cfg, p, st, h, after, playout);
    FreshValues(cfg, h, p.offset, after, lat, playout, w);
  }

  lemma FreshValues(cfg: Config, h: Header<int>, before: u32, after: u32, lat: u32, playout: u32, w: Window)
    requires SaneLatency(cfg) && w.spread < 0x8000_0000 && InWindow(before, w) && Consistent(h, w)
    requires MinLat(cfg) <= MaxLat(cfg) ==> MinLat(cfg) <= lat <= MaxLat(cfg)
    requires after == OffsetStep(before, Transit(h)) && playout == W32(W32(h.ts + after) + lat)
    ensures OnTime(cfg, h, playout, w)
    ensures InWindow(after, w)
    ensures W32(after - w.lo) <= h.tsArrive - h.x - w.lo
    ensures MinLat(cfg) <= W32(playout - (h.ts + after)) <= MaxLat(cfg)
  {
    OffsetFits(before, after, h, w);
    FreshTimes(cfg, h, after, lat, playout, w);
  }

  lemma OffsetFits(before: u32, after: u32, h: Header<int>, w: Window)
    requires InWindow(before, w) && Consistent(h, w) && w.spread < 0x8000_0000
    requires after == OffsetStep(before, Transit(h))
    ensures InWindow(after, w)
    ensures W32(after - w.lo) <= h.tsArrive - h.x - w.lo
  {
    TransitIsOffset(h, w);
    OffsetStepInWindow(before, h.tsArrive - h.x, w);
  }

  /** What `calc_playout_time` computes from the result of the estimator. */
  lemma PlayoutShape(cfg: Config, p: Playout, st: Stats, h: Header<int>, r: (Playout, u32, u32))
    requires cfg.srate > 0
    requires r == AdaptStep(cfg, p.(offset := OffsetStep(p.offset, Transit(h))), Transit(h), st.cJitter)
    ensures var q := PlayoutStep(cfg, p, st, None, h);
      && q.0 == r.0
      && q.2 == W32(W32(h.ts + OffsetStep(p.offset, Transit(h))) + Clamp(r.1, MinLat(cfg), MaxLat(cfg)))
  {
  }

  /** A fresh playout time is the sender time, the new minimum offset and a latency within the limits. */
  lemma FreshShape(cfg: Config, p: Playout, st: Stats, h: Header<int>, after: u32, playout: u32) returns (lat: u32)
    requires cfg.srate > 0
    requires var r := PlayoutStep(cfg, p, st, None, h); after == r.0.offset && playout == r.2
    ensures after == OffsetStep(p.offset, Transit(h)) && playout == W32(W32(h.ts + after) + lat)
    ensures MinLat(cfg) <= MaxLat(cfg) ==> MinLat(cfg) <= lat <= MaxLat(cfg)
  {
    var q := p.(offset := OffsetStep(p.offset, Transit(h)));
    var r := AdaptStep(cfg, q, Transit(h), st.cJitter);
    PlayoutShape(cfg, p, st, h, r);
    AdaptKeepsOffset(cfg, q, Transit(h), st.cJitter);
    lat := Clamp(r.1, MinLat(cfg), MaxLat(cfg));
  }

  lemma AdaptKeepsOffset(cfg: Config, p: Playout, transit: u32, cJitter: u32)
    requires cfg.srate > 0
    ensures AdaptStep(cfg, p, transit, cJitter).0.offset == p.offset
  {
  }

  lemma FreshTimes(cfg: Config, h: Header<int>, offset: u32, lat: u32, playout: u32, w: Window)
    requires SaneLatency(cfg) && Consistent(h, w) && w.spread < 0x8000_0000
    requires W32(offset - w.lo) <= h.tsArrive - h.x - w.lo
    requires MinLat(cfg) <= MaxLat(cfg) ==> MinLat(cfg) <= lat <= MaxLat(cfg)
    requires playout == W32(W32(h.ts + offset) + lat)
    ensures OnTime(cfg, h, playout, w) && MinLat(cfg) <= W32(playout - (h.ts + offset)) <= MaxLat(cfg)
  {
    LatencyFits(cfg);
    FreshOnTime(cfg, h, offset, lat, w);
    LatencyReadBack(h.ts + offset, lat);
  }

  // ---------------------------------------------------------------- runs

  /** Admission changes the offset only as `calc_playout_time` does, but for a reset to "not set". */
  lemma AdmitInWindow(s: State<int>, cell: Cell, i: nat, h: Header<int>, m: Option<Mem>, c: Clock, w: Window)
    requires i <= |s.packets| && s.cfg.srate > 0
    requires InWindow(PlayoutStep(s.cfg, s.p, s.stat, Before(s.packets, i), h).0.offset, w)
    ensures InWindow(Admit(s, cell, i, h, m, c).0.p.offset, w)
  {
  }

  lemma InsertPunctual(cfg: Config, ps: seq<Packet<int>>, i: nat, f: Packet<int>, w: Window, lastArrival: int)
    requires AllPunctual(cfg, ps, w, lastArrival) && lastArrival <= f.hdr.tsArrive && i <= |ps|
    requires Consistent(f.hdr, w) && OnTime(cfg, f.hdr, f.playout, w)
    ensures AllPunctual(cfg, ps, w, f.hdr.tsArrive)
    ensures AllPunctual(cfg, InsertAt(ps, i, f), w, f.hdr.tsArrive)
  {
  }

  lemma AdmitTimed(b: State<int>, cell: Cell, i: nat, h: Header<int>, m: Option<Mem>, c: Clock,
                   w: Window, lastArrival: int)
    requires b.cfg.srate > 0 && SaneLatency(b.cfg) && w.spread < 0x8000_0000 && i <= |b.packets|
    requires Timed(b, w, lastArrival) && Timely(b, w, lastArrival, Put(h, m, c)) && h.tsArrive != 0
    ensures Timed(Admit(b, cell, i, h, m, c).0, w, h.tsArrive)
  {
    PlayoutStepOnTime(b, Before(b.packets, i), h, w, lastArrival);
    AdmitInWindow(b, cell, i, h, m, c, w);
    var playout := PlayoutStep(b.cfg, b.p, b.stat, Before(b.packets, i), h).2;
    InsertPunctual(b.cfg, b.packets, i, Packet(cell.slot, h, playout, m), w, lastArrival);
  }

  lemma EnterTimed(a: State<int>, cell: Cell, h: Header<int>, m: Option<Mem>, c: Clock, w: Window, lastArrival: int)
    requires a.cfg.srate > 0 && SaneLatency(a.cfg) && w.spread < 0x8000_0000
    requires Timed(a, w, lastArrival) && Timely(a, w, lastArrival, Put(h, m, c)) && h.tsArrive != 0
    ensures Timed(Enter(a, cell, h, m, c).s, w, h.tsArrive)
  {
    var place := Locate(a.packets, h.seqno, |a.packets|);
    if place.At? {
      AdmitTimed(Announce(a, place.i, h.seqno).0, cell, place.i, h, m, c, w, lastArrival);
    }
  }

  lemma AcceptTimed(s: State<int>, h: Header<int>, m: Option<Mem>, c: Clock, w: Window, lastArrival: int)
    requires Sized(s) && s.cfg.srate > 0 && SaneLatency(s.cfg) && w.spread < 0x8000_0000
    requires Timed(s, w, lastArrival) && Timely(s, w, lastArrival, Put(h, m, c)) && h.tsArrive != 0
    ensures Timed(Accept(s, h, m, c).s, w, h.tsArrive)
  {
    var (a, cell) := Alloc(CountPut(s));
    EnterTimed(a, cell, h, m, c, w, lastArrival);
  }

  lemma PutTimed(s: State<int>, h: Header<int>, m: Option<Mem>, c: Clock, w: Window, lastArrival: int)
    requires Sized(s) && SaneLatency(s.cfg) && w.spread < 0x8000_0000
    requires Timed(s, w, lastArrival) && Timely(s, w, lastArrival, Put(h, m, c))
    ensures Timed(PutStep(s, h, m, c).s, w, ArrivalAfter(lastArrival, Put(h, m, c)))
  {
    FreeAllSize(s.packets);
    var s1 := Resynced(s, h).(ssrc := h.ssrc);
    if h.tsArrive != 0 && s1.cfg.srate != 0 && !TooLate(s1, h.seqno) {
      AcceptTimed(s1, h, m, c, w, lastArrival);
    }
  }

  /** Every timely step keeps all buffered packets on time. */
  lemma StepTimed(s: State<int>, w: Window, lastArrival: int, op: Op<int>)
    requires Sized(s) && SaneLatency(s.cfg) && w.spread < 0x8000_0000
    requires Timed(s, w, lastArrival) && Timely(s, w, lastArrival, op)
    ensures Timed(Step(s, op).s, w, ArrivalAfter(lastArrival, op))
  {
    match op
    case Put(h, m, c) => PutTimed(s, h, m, c, w, lastArrival);
    case Get(next) =>
    case Drain =>
    case Flush =>
  }

  function LastArrival(ops: seq<Op<int>>): int
    decreases |ops|
  {
    if ops == [] then 0 else ArrivalAfter(LastArrival(Front(ops)), Last(ops))
  }

  predicate TimelyRun(s: State<int>, w: Window, ops: seq<Op<int>>)
    requires Sized(s)
    decreases |ops|
  {
    ops == [] ||
    (TimelyRun(s, w, Front(ops)) && Timely(Exec(s, Front(ops)), w, LastArrival(Front(ops)), Last(ops)))
  }

  /**
   * In every timely run of a new buffer each buffered packet plays no later
   * than its arrival plus the maximum delay and no earlier than the minimum
   * delay after the earliest offset.
   */
  lemma {:induction false} RunTimed(cfg: Config, w: Window, ops: seq<Op<int>>)
    requires cfg.maxsz >= 1 && SaneLatency(cfg) && w.spread < 0x8000_0000
    requires TimelyRun(Init(cfg), w, ops)
    ensures Timed(Exec(Init(cfg), ops), w, LastArrival(ops))
    decreases |ops|
  {
    if ops != [] {
      RunTimed(cfg, w, Front(ops));
      StepTimed(Exec(Init(cfg), Front(ops)), w, LastArrival(Front(ops)), Last(ops));
    }
  }
}
