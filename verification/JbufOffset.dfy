/**
 * The running minimum offset of the jitter buffer over whole runs: `p.offset`
 * is either not set or the smallest offset among the packets that were timed
 * since it was last not set.
 */
module JbufOffset {
  import opened Words
  import opened JbufModel
  import opened JbufRun
  import JbufSkew
  import JbufJitter
  import JbufTiming

  /** The operation computes a playout time and with it moves the minimum offset. */
  predicate Times<X>(s: State<X>, op: Op<X>)
    requires Sized(s)
  {
    JbufSkew.Admits(s, op) && JbufJitter.Fresh(JbufJitter.Predecessor(s, op), op.h)
  }

  /** The offsets of the packets timed since `p.offset` last read 0. */
  function TimedAfter(s: State<int>, timed: seq<int>, op: Op<int>): seq<int>
    requires Sized(s)
  {
    if !Times(s, op) then timed
    else (if JbufSkew.Checked(s, op.h).p.offset == 0 then [] else timed) + [op.h.tsArrive - op.h.x]
  }

  /** `u` is the smallest number of `us`. */
  predicate IsMinimum(us: seq<int>, u: int) {
    u in us && forall i :: 0 <= i < |us| ==> u <= us[i]
  }

  ghost predicate Minimal(offset: u32, timed: seq<int>, w: JbufTiming.Window) {
    && (forall i :: 0 <= i < |timed| ==> w.lo <= timed[i] <= w.lo + w.spread)
    && (offset != 0 ==> exists o :: IsMinimum(timed, o) && offset == W32(o))
  }

  /** The minimum over one more offset, by 32-bit serial order. */
  lemma MinimalNext(offset: u32, timed: seq<int>, w: JbufTiming.Window, o: int)
    requires Minimal(offset, timed, w) && w.lo <= o <= w.lo + w.spread && w.spread < 0x8000_0000
    ensures Minimal(OffsetStep(offset, W32(o)), (if offset == 0 then [] else timed) + [o], w)
  {
    if offset == 0 {
      assert IsMinimum([] + [o], o);
    } else {
      var a :| IsMinimum(timed, a) && offset == W32(a);
      JbufTiming.OffsetMinExact(a, o);
      assert IsMinimum(timed + [o], Min(a, o));
    }
  }

  lemma PlayoutOffset<X>(cfg: Config, p: Playout, st: Stats, prev: Option<Packet<X>>, h: Header<X>)
    requires cfg.srate > 0
    ensures PlayoutStep(cfg, p, st, prev, h).0.offset ==
            if JbufJitter.Fresh(prev, h) then OffsetStep(p.offset, Transit(h)) else p.offset
  {
  }

  lemma AdmitOffset<X>(b: State<X>, cell: Cell, i: nat, h: Header<X>, m: Option<Mem>, c: Clock)
    requires i <= |b.packets| && b.cfg.srate > 0
    ensures var offset := Admit(b, cell, i, h, m, c).0.p.offset;
      offset == 0 ||
      offset == if JbufJitter.Fresh(Before(b.packets, i), h) then OffsetStep(b.p.offset, Transit(h)) else b.p.offset
  {
    PlayoutOffset(b.cfg, b.p, b.stat, Before(b.packets, i), h);
  }

  /** A put leaves the minimum offset alone, moves it by the packet's own offset, or resets it. */
  lemma PutOffset<X>(s: State<X>, op: Op<X>)
    requires Sized(s) && op.Put? && op.h.tsArrive != 0
    ensures var offset, before := PutStep(s, op.h, op.m, op.c).s.p.offset, JbufSkew.Checked(s, op.h).p.offset;
      offset == 0 || offset == if Times(s, op) then OffsetStep(before, Transit(op.h)) else before
  {
    if JbufSkew.Admits(s, op) {
      FreeAllSize(s.packets);
      var (a, cell) := Alloc(CountPut(JbufSkew.Checked(s, op.h)));
      var i := Locate(a.packets, op.h.seqno, |a.packets|).i;
      AdmitOffset(Announce(a, i, op.h.seqno).0, cell, i, op.h, op.m, op.c);
    }
  }

  predicate InWindow(op: Op<int>, w: JbufTiming.Window) {
    op.Put? && op.h.tsArrive != 0 ==> JbufTiming.Consistent(op.h, w)
  }

  lemma MinimalAfter(before: u32, after: u32, times: bool, timed: seq<int>, timed': seq<int>,
                     w: JbufTiming.Window, h: Header<int>)
    requires Minimal(before, timed, w) && w.spread < 0x8000_0000 && JbufTiming.Consistent(h, w)
    requires after == 0 || after == if times then OffsetStep(before, Transit(h)) else before
    requires timed' == if times then (if before == 0 then [] else timed) + [h.tsArrive - h.x] else timed
    ensures Minimal(after, timed', w)
  {
    if times {
      JbufTiming.TransitIsOffset(h, w);
      MinimalNext(before, timed, w, h.tsArrive - h.x);
    }
  }

  lemma CheckedMinimal(s: State<int>, timed: seq<int>, h: Header<int>, w: JbufTiming.Window)
    requires Minimal(s.p.offset, timed, w)
    ensures Minimal(JbufSkew.Checked(s, h).p.offset, timed, w)
  {
  }

  /** The values that a put starts from and ends with are those of `MinimalAfter`. */
  lemma PutValues(s: State<int>, timed: seq<int>, op: Op<int>) returns (before: u32, after: u32, times: bool)
    requires Sized(s) && op.Put? && op.h.tsArrive != 0
    ensures before == JbufSkew.Checked(s, op.h).p.offset && after == PutStep(s, op.h, op.m, op.c).s.p.offset
    ensures after == 0 || after == if times then OffsetStep(before, Transit(op.h)) else before
    ensures TimedAfter(s, timed, op) ==
      if times then (if before == 0 then [] else timed) + [op.h.tsArrive - op.h.x] else timed
  {
    PutOffset(s, op);
    before, after := JbufSkew.Checked(s, op.h).p.offset, PutStep(s, op.h, op.m, op.c).s.p.offset;
    times := Times(s, op);
  }

  lemma PutMinimal(s: State<int>, timed: seq<int>, op: Op<int>, w: JbufTiming.Window)
    requires Sized(s) && op.Put? && op.h.tsArrive != 0
    requires Minimal(s.p.offset, timed, w) && JbufTiming.Consistent(op.h, w) && w.spread < 0x8000_0000
    ensures Minimal(PutStep(s, op.h, op.m, op.c).s.p.offset, TimedAfter(s, timed, op), w)
  {
    CheckedMinimal(s, timed, op.h, w);
    var before, after, times := PutValues(s, timed, op);
    MinimalAfter(before, after, times, timed, TimedAfter(s, timed, op), w, op.h);
  }

  lemma StepMinimal(s: State<int>, timed: seq<int>, op: Op<int>, w: JbufTiming.Window)
    requires Sized(s) && Minimal(s.p.offset, timed, w) && InWindow(op, w) && w.spread < 0x8000_0000
    ensures Minimal(Step(s, op).s.p.offset, TimedAfter(s, timed, op), w)
  {
    if op.Put? && op.h.tsArrive != 0 {
      PutMinimal(s, timed, op, w);
    }
  }

  function TimedOf(s: State<int>, ops: seq<Op<int>>): seq<int>
    requires Sized(s)
    decreases |ops|
  {
    if ops == [] then [] else TimedAfter(Exec(s, Front(ops)), TimedOf(s, Front(ops)), Last(ops))
  }

  /**
   * In every run whose offsets lie in a window shorter than 2^31, the minimum
   * offset of the buffer, when it is set, is the residue of the smallest offset
   * of the packets timed since it was last not set.
   */
  lemma {:induction false} RunMinimal(cfg: Config, ops: seq<Op<int>>, w: JbufTiming.Window)
    requires cfg.maxsz >= 1 && w.spread < 0x8000_0000 && forall i :: 0 <= i < |ops| ==> InWindow(ops[i], w)
    ensures Minimal(Exec(Init(cfg), ops).p.offset, TimedOf(Init(cfg), ops), w)
    decreases |ops|
  {
    if ops != [] {
      RunMinimal(cfg, Front(ops), w);
      StepMinimal(Exec(Init(cfg), Front(ops)), TimedOf(Init(cfg), Front(ops)), Last(ops), w);
    }
  }
}
