/**
 * The jitter estimator of the jitter buffer (appendix A.8 of RFC 3550): its
 * 32-bit accumulator neither underflows nor grows beyond the largest deviation
 * that it is fed, in any run.
 */
module JbufJitter {
  import opened Words
  import opened Division
  import opened JbufModel
  import opened JbufRun
  import JbufSkew
  import JbufOrder

  /** The largest value that deviations of at most `bound` can raise the 32-bit accumulator to. */
  function Peak(bound: nat): u32 {
    if bound == 0 then 0 else if 16 * bound < 0x1_0000_0000 then 16 * bound - 8 else 0xFFFF_FFFF
  }

  /** The quotient rounds to the nearest, so that a sixteenth is taken off in full at 16 q - 8. */
  lemma JitterExact(jitter: int, d: int, bound: int)
    requires 0 <= d <= bound && 0 <= jitter && (jitter <= 16 * bound - 8 || jitter == bound == 0)
    ensures 0 <= jitter + d - (jitter + 8) / 16
    ensures jitter + d - (jitter + 8) / 16 <= (if bound == 0 then 0 else 16 * bound - 8)
    ensures d == bound && jitter < 16 * bound - 8 ==> jitter < jitter + d - (jitter + 8) / 16
    ensures d == bound && jitter == 16 * bound - 8 ==> jitter + d - (jitter + 8) / 16 == jitter
  {
    var q := (jitter + 8) / 16;
    assert 16 * q <= jitter + 8 < 16 * q + 16;
  }

  /** The accumulator never underflows and never passes the peak, and below the peak the largest deviation raises it. */
  lemma JitterUpdateBounded(jitter: u32, d: s32, bound: nat)
    requires 0 <= d <= bound && jitter <= Peak(bound)
    ensures JitterUpdate(jitter, d) <= Peak(bound)
    ensures 16 * bound < 0x1_0000_0000 ==>
      && JitterUpdate(jitter, d) == jitter + d - (jitter + 8) / 16
      && (d == bound && jitter < Peak(bound) ==> jitter < JitterUpdate(jitter, d))
      && (d == bound && jitter == Peak(bound) ==> JitterUpdate(jitter, d) == jitter)
  {
    if 16 * bound < 0x1_0000_0000 {
      JitterExact(jitter, d, bound);
      W32Residue(jitter + 8, jitter + 8, 0);
      W32Residue(jitter + d - (jitter + 8) / 16, jitter + d - (jitter + 8) / 16, 0);
    }
  }

  /** A deviation of `d` counts: in ms it is above half the minimum delay. */
  predicate Counts(cfg: Config, d: s32)
    requires cfg.srate > 0
  {
    W32(DelayMs(d, cfg.srate)) > cfg.mind / 2
  }

  /** The accumulator stays at most `top` while all deviations that count are at most `bound`. */
  ghost predicate Keeps(cfg: Config, bound: nat, top: u32)
    requires cfg.srate > 0
  {
    forall acc: u32, d: s32 :: acc <= top && 0 <= d <= bound && Counts(cfg, d) ==> JitterUpdate(acc, d) <= top
  }

  lemma PeakKeeps(cfg: Config, bound: nat)
    requires cfg.srate > 0
    ensures Keeps(cfg, bound, Peak(bound))
  {
    forall acc: u32, d: s32 | acc <= Peak(bound) && 0 <= d <= bound ensures JitterUpdate(acc, d) <= Peak(bound) {
      JitterUpdateBounded(acc, d, bound);
    }
  }

  predicate Calm(p: Playout, top: u32) {
    p.jitter <= top && p.jitterOffset <= 2 * (top / 16)
  }

  lemma DoubledJitter(acc: u32, top: u32)
    requires acc <= top
    ensures W32(2 * (acc / 16)) <= 2 * (top / 16)
  {
  }

  /** One step of the estimator keeps the accumulator below `top`, and the adaptive offset with it. */
  lemma JitterCoreCalm(cfg: Config, p: Playout, transit: u32, bound: nat, top: u32)
    requires cfg.srate > 0 && Keeps(cfg, bound, top) && Calm(p, top)
    requires p.lastTransit != 0 ==> 0 <= Deviation(transit, p.lastTransit) <= bound
    ensures Calm(JitterCore(p, transit, Counts(cfg, Deviation(transit, p.lastTransit))), top)
  {
    if p.lastTransit != 0 {
      var d := Deviation(transit, p.lastTransit);
      DoubledJitter(if Counts(cfg, d) then JitterUpdate(p.jitter, d) else p.jitter, top);
    }
  }

  /** The estimator of a configuration keeps below `top`: an adaptive one does so by its updates. */
  ghost predicate StaysBelow(cfg: Config, bound: nat, top: u32) {
    cfg.srate > 0 && cfg.jbtype.Adaptive? ==> Keeps(cfg, bound, top)
  }

  lemma AdaptStepCalm(cfg: Config, p: Playout, transit: u32, cJitter: u32, bound: nat, top: u32)
    requires cfg.srate > 0 && StaysBelow(cfg, bound, top) && Calm(p, top)
    requires cfg.jbtype.Adaptive? && p.lastTransit != 0 ==> 0 <= Deviation(transit, p.lastTransit) <= bound
    ensures Calm(AdaptStep(cfg, p, transit, cJitter).0, top)
  {
    if cfg.jbtype.Adaptive? {
      JitterCoreCalm(cfg, p, transit, bound, top);
    }
  }

  /** The list in which an admitted packet finds its place, and the packet before that place. */
  function Predecessor<X>(s: State<X>, op: Op<X>): Option<Packet<X>>
    requires Sized(s) && JbufSkew.Admits(s, op)
  {
    FreeAllSize(s.packets);
    var ps := Alloc(CountPut(JbufSkew.Checked(s, op.h))).0.packets;
    Before(ps, Locate(ps, op.h.seqno, |ps|).i)
  }

  /** The packet starts a frame of its own: its playout time is computed and not copied. */
  predicate Fresh<X>(prev: Option<Packet<X>>, h: Header<X>) { prev.None? || prev.value.hdr.ts != h.ts }

  /** The operation feeds a deviation to the estimator. */
  predicate Feeds<X>(s: State<X>, op: Op<X>)
    requires Sized(s)
  {
    && JbufSkew.Admits(s, op) && s.cfg.jbtype.Adaptive?
    && JbufSkew.Checked(s, op.h).p.lastTransit != 0
    && Fresh(Predecessor(s, op), op.h)
  }

  function Fed<X>(s: State<X>, op: Op<X>): s32
    requires Sized(s) && Feeds(s, op)
  {
    Deviation(Transit(op.h), JbufSkew.Checked(s, op.h).p.lastTransit)
  }

  /** The estimator is only touched by `calc_playout_time`. */
  lemma AdmitCalm<X>(b: State<X>, cell: Cell, i: nat, h: Header<X>, m: Option<Mem>, c: Clock, bound: nat, top: u32)
    requires i <= |b.packets| && b.cfg.srate > 0 && StaysBelow(b.cfg, bound, top) && Calm(b.p, top)
    requires b.cfg.jbtype.Adaptive? && b.p.lastTransit != 0 && Fresh(Before(b.packets, i), h) ==>
      0 <= Deviation(Transit(h), b.p.lastTransit) <= bound
    ensures Calm(Admit(b, cell, i, h, m, c).0.p, top)
  {
    PlayoutCalm(b.cfg, b.p, b.stat, Before(b.packets, i), h, bound, top);
  }

  lemma PlayoutCalm<X>(cfg: Config, p: Playout, st: Stats, prev: Option<Packet<X>>, h: Header<X>, bound: nat, top: u32)
    requires cfg.srate > 0 && StaysBelow(cfg, bound, top) && Calm(p, top)
    requires cfg.jbtype.Adaptive? && p.lastTransit != 0 && Fresh(prev, h) ==>
      0 <= Deviation(Transit(h), p.lastTransit) <= bound
    ensures Calm(PlayoutStep(cfg, p, st, prev, h).0, top)
  {
    if Fresh(prev, h) {
      AdaptStepCalm(cfg, p.(offset := OffsetStep(p.offset, Transit(h))), Transit(h), st.cJitter, bound, top);
    }
  }

  /** Every step that feeds no deviation above the bound keeps the estimator below `top`. */
  lemma StepCalm<X>(s: State<X>, op: Op<X>, bound: nat, top: u32)
    requires Sized(s) && StaysBelow(s.cfg, bound, top) && Calm(s.p, top)
    requires Feeds(s, op) ==> 0 <= Fed(s, op) <= bound
    ensures Calm(Step(s, op).s.p, top)
  {
    if op.Put? && JbufSkew.Admits(s, op) {
      FreeAllSize(s.packets);
      var (a, cell) := Alloc(CountPut(JbufSkew.Checked(s, op.h)));
      var i := Locate(a.packets, op.h.seqno, |a.packets|).i;
      AdmitCalm(Announce(a, i, op.h.seqno).0, cell, i, op.h, op.m, op.c, bound, top);
    }
  }

  predicate BoundedRun<X>(s: State<X>, ops: seq<Op<X>>, bound: nat)
    requires Sized(s)
    decreases |ops|
  {
    ops == [] ||
    (BoundedRun(s, Front(ops), bound) &&
     (Feeds(Exec(s, Front(ops)), Last(ops)) ==> 0 <= Fed(Exec(s, Front(ops)), Last(ops)) <= bound))
  }

  lemma {:induction false} StaysCalm<X>(s: State<X>, ops: seq<Op<X>>, bound: nat, top: u32)
    requires Sized(s) && StaysBelow(s.cfg, bound, top) && Calm(s.p, top) && BoundedRun(s, ops, bound)
    ensures Calm(Exec(s, ops).p, top)
    decreases |ops|
  {
    if ops != [] {
      StaysCalm(s, Front(ops), bound, top);
      StepCalm(Exec(s, Front(ops)), Last(ops), bound, top);
    }
  }

  lemma CalmMeans(p: Playout, bound: nat)
    requires Calm(p, Peak(bound))
    ensures if bound == 0 then p.jitter == p.jitterOffset == 0
      else p.jitter / 16 <= bound - 1 && p.jitterOffset <= 2 * (bound - 1)
    ensures bound >= 1 && bound != LARGEST ==> p.jitter <= 16 * bound - 8
  {
  }

  /** The deviation whose sixteen-fold is 2^32. */
  const LARGEST := 0x1000_0000

  /** Near 2^32 the rounding term of the accumulator can wrap: deviations of 2^28 and of 7 both count. */
  predicate Wraps(cfg: Config) {
    cfg.srate > 0 && cfg.jbtype.Adaptive? && Counts(cfg, LARGEST) && Counts(cfg, 7)
  }

  /**
   * In every run in which no deviation fed to the estimator exceeds D >= 1, the
   * jitter that it reports stays at most D - 1, the adaptive offset, before it
   * is clamped, at most 2 (D - 1), and the accumulator at most 16 D - 8, but for
   * D = 2^28 only if the rounding term cannot wrap.  Without any deviation all
   * three stay 0.
   */
  lemma RunCalm<X>(cfg: Config, ops: seq<Op<X>>, bound: nat)
    requires cfg.maxsz >= 1 && BoundedRun(Init(cfg), ops, bound)
    ensures var p := Exec(Init(cfg), ops).p;
      if bound == 0 then p.jitter == p.jitterOffset == 0
      else p.jitter / 16 <= bound - 1 && p.jitterOffset <= 2 * (bound - 1)
    ensures bound >= 1 && (bound != LARGEST || !Wraps(cfg)) ==> Exec(Init(cfg), ops).p.jitter <= 16 * bound - 8
  {
    if cfg.srate > 0 {
      PeakKeeps(cfg, bound);
    }
    StaysCalm(Init(cfg), ops, bound, Peak(bound));
    CalmMeans(Exec(Init(cfg), ops).p, bound);
    if bound == LARGEST && !Wraps(cfg) {
      var top := TopStaysBelow(cfg);
      StaysCalm(Init(cfg), ops, bound, top);
    }
  }

  // ---------------------------------------------------------------- the largest deviation

  /** A deviation of at most 7 counts only if 7 does. */
  lemma SmallCounts(cfg: Config, d: s32)
    requires cfg.srate > 0 && 0 <= d <= 7 && Counts(cfg, d)
    ensures Counts(cfg, 7)
  {
    FloorMonotone(d * 1000, 7000, cfg.srate);
    SmallDelay(d, cfg.srate);
    SmallDelay(7, cfg.srate);
  }

  lemma SmallDelay(d: s32, srate: u32)
    requires srate > 0 && 0 <= d <= 7
    ensures W32(DelayMs(d, srate)) == d * 1000 / srate
  {
    var q := d * 1000 / srate;
    assert 0 <= q <= 7000 by { FloorSmall(d * 1000, srate); }
    S32Residue(q, q, 0);
    W32Residue(q, q, 0);
  }

  /** At 2^32 - 8 the rounding term is 0, and a deviation of at least 8 wraps the accumulator to a small value. */
  lemma LargeUpdate(acc: u32, d: s32)
    requires acc <= 0xFFFF_FFF8 && 8 <= d <= LARGEST
    ensures JitterUpdate(acc, d) <= 0xFFFF_FFF8
  {
    if acc < 0xFFFF_FFF8 {
      JitterExact(acc, d, LARGEST);
      W32Residue(acc + 8, acc + 8, 0);
      W32Residue(acc + d - (acc + 8) / 16, acc + d - (acc + 8) / 16, 0);
    } else {
      W32Residue(acc + 8, 0, 1);
      W32Residue(acc + d, d - 8, 1);
    }
  }

  /** What deviations of at most 2^28 can raise the accumulator to when the rounding term cannot wrap. */
  function Top(cfg: Config): u32
    requires cfg.srate > 0
  {
    if Counts(cfg, LARGEST) then 0xFFFF_FFF8 else 0xFFFF_FFE8
  }

  lemma TopUpdate(cfg: Config, acc: u32, d: s32)
    requires cfg.srate > 0 && !(Counts(cfg, LARGEST) && Counts(cfg, 7))
    requires acc <= Top(cfg) && 0 <= d <= LARGEST && Counts(cfg, d)
    ensures JitterUpdate(acc, d) <= Top(cfg)
  {
    if !Counts(cfg, LARGEST) {
      JitterUpdateBounded(acc, d, LARGEST - 1);
    } else if d <= 7 {
      SmallCounts(cfg, d);
      assert false;
    } else {
      LargeUpdate(acc, d);
    }
  }

  lemma TopStaysBelow(cfg: Config) returns (top: u32)
    requires !Wraps(cfg)
    ensures StaysBelow(cfg, LARGEST, top) && top <= 16 * LARGEST - 8
  {
    top := 0;
    if cfg.srate > 0 && cfg.jbtype.Adaptive? {
      top := Top(cfg);
      forall acc: u32, d: s32 | acc <= top && 0 <= d <= LARGEST && Counts(cfg, d) ensures JitterUpdate(acc, d) <= top {
        TopUpdate(cfg, acc, d);
      }
    }
  }

  // ---------------------------------------------------------------- the bound is reached

  /** The put of a packet with timestamp 0 that arrives at `arrive`, which is then its transit. */
  function SwingPut(arrive: u32): Op<int> {
    Put(Header(0, 0, arrive, 7, true, 0), None, Clock(0, 0, 0))
  }

  /** The transit of the last packet and the accumulator, in an idle buffer. */
  predicate Swinging(t: State<int>, transit: u32, acc: u32) {
    JbufOrder.Idle(t, 7) && t.cfg.jbtype.Adaptive? && t.p.lastTransit == transit && t.p.jitter == acc
  }

  /** A packet that starts a frame of its own goes through the estimator. */
  lemma AdmitFresh<X>(b: State<X>, cell: Cell, i: nat, h: Header<X>, m: Option<Mem>, c: Clock)
    requires i <= |b.packets| && b.cfg.srate > 0 && b.cfg.jbtype.Adaptive? && Fresh(Before(b.packets, i), h)
    ensures var p := Admit(b, cell, i, h, m, c).0.p;
      var q := JitterCore(b.p, Transit(h), Counts(b.cfg, Deviation(Transit(h), b.p.lastTransit)));
      p.lastTransit == q.lastTransit && p.jitter == q.jitter
  {
  }

  lemma SwingAdmitted(t: State<int>, arrive: u32)
    requires JbufOrder.Idle(t, 7) && arrive >= 1
    ensures var op := SwingPut(arrive);
      && JbufSkew.Admits(t, op) && Predecessor(t, op).None? && JbufSkew.Checked(t, op.h).p == t.p
      && Transit(op.h) == arrive
  {
  }

  lemma PutFresh<X>(s: State<X>, op: Op<X>)
    requires Sized(s) && JbufSkew.Admits(s, op) && s.cfg.jbtype.Adaptive? && Fresh(Predecessor(s, op), op.h)
    ensures var p, p0 := PutStep(s, op.h, op.m, op.c).s.p, JbufSkew.Checked(s, op.h).p;
      var q := JitterCore(p0, Transit(op.h), Counts(s.cfg, Deviation(Transit(op.h), p0.lastTransit)));
      p.lastTransit == q.lastTransit && p.jitter == q.jitter
  {
    FreeAllSize(s.packets);
    var (a, cell) := Alloc(CountPut(JbufSkew.Checked(s, op.h)));
    var i := Locate(a.packets, op.h.seqno, |a.packets|).i;
    AdmitFresh(Announce(a, i, op.h.seqno).0, cell, i, op.h, op.m, op.c);
  }

  /** A packet is delivered at once; unless it is the first one it feeds the estimator its deviation `d`. */
  lemma SwingStep(t: State<int>, arrive: u32, last: u32, acc: u32, d: s32)
    requires Swinging(t, last, acc) && arrive >= 1
    requires last != 0 ==> d == Deviation(arrive, last) && Counts(t.cfg, d)
    ensures var op := SwingPut(arrive);
      && (Feeds(t, op) ==> last != 0 && Fed(t, op) == d)
      && Swinging(Step(Step(t, op).s, Drain).s, arrive, if last == 0 then acc else JitterUpdate(acc, d))
  {
    var op := SwingPut(arrive);
    SwingAdmitted(t, arrive);
    PutFresh(t, op);
    JbufOrder.PutIntoEmpty(t, op.h, op.m, op.c);
    JbufOrder.DrainOnly(Step(t, op).s);
  }

  /** The run `ops` leads from `s` to `t` and feeds no deviation above the bound. */
  predicate Leads(s: State<int>, ops: seq<Op<int>>, t: State<int>, bound: nat)
    requires Sized(s)
  {
    BoundedRun(s, ops, bound) && Exec(s, ops) == t
  }

  lemma LeadsOn(s: State<int>, ops: seq<Op<int>>, t: State<int>, op: Op<int>, bound: nat)
    requires Sized(s) && Sized(t) && Leads(s, ops, t, bound)
    requires Feeds(t, op) ==> 0 <= Fed(t, op) <= bound
    ensures Leads(s, ops + [op], Step(t, op).s, bound)
  {
    assert Front(ops + [op]) == ops;
  }

  /** One more packet at the end of a run; unless it is the first, its deviation is `d`. */
  lemma SwingMore(s: State<int>, ops: seq<Op<int>>, t: State<int>, arrive: u32, last: u32, acc: u32, d: s32, bound: nat)
    returns (t': State<int>)
    requires Sized(s) && Leads(s, ops, t, bound) && Swinging(t, last, acc) && arrive >= 1 && 0 <= d <= bound
    requires last != 0 ==> d == Deviation(arrive, last) && Counts(t.cfg, d)
    ensures Leads(s, ops + [SwingPut(arrive)] + [Drain], t', bound) && t'.cfg == t.cfg
    ensures Swinging(t', arrive, if last == 0 then acc else JitterUpdate(acc, d))
  {
    var op := SwingPut(arrive);
    SwingStep(t, arrive, last, acc, d);
    LeadsOn(s, ops, t, op, bound);
    LeadsOn(s, ops + [op], Step(t, op).s, Drain, bound);
    t' := Step(Step(t, op).s, Drain).s;
  }

  /** Packets that arrive as listed, every deviation being `bound`, each delivered before the next one comes. */
  predicate Swings(ops: seq<Op<int>>, arrivals: seq<u32>, bound: nat) {
    && |ops| == 2 * |arrivals|
    && forall k :: 0 <= k < |arrivals| ==>
         && ops[2 * k] == SwingPut(arrivals[k]) && ops[2 * k + 1] == Drain && arrivals[k] >= 1
         && (k > 0 ==> Deviation(arrivals[k], arrivals[k-1]) == bound)
  }

  /** After `n` packets the accumulator is at the peak or has been raised by all but the first of them. */
  predicate Swung(t: State<int>, last: u32, bound: nat, n: nat) {
    && Swinging(t, last, t.p.jitter) && (n == 0 <==> last == 0)
    && t.p.jitter <= Peak(bound) && (t.p.jitter == Peak(bound) || t.p.jitter >= n - 1)
  }

  lemma SwungNext(s: State<int>, ops: seq<Op<int>>, t: State<int>, arrive: u32, last: u32, bound: nat, n: nat)
    returns (t': State<int>)
    requires Sized(s) && Leads(s, ops, t, bound) && Swung(t, last, bound, n) && arrive >= 1
    requires 1 <= bound && 16 * bound < 0x1_0000_0000 && t.cfg.srate > 0 && Counts(t.cfg, bound)
    requires n > 0 ==> Deviation(arrive, last) == bound
    ensures Leads(s, ops + [SwingPut(arrive)] + [Drain], t', bound) && t'.cfg == t.cfg
    ensures Swung(t', arrive, bound, n + 1)
  {
    t' := SwingMore(s, ops, t, arrive, last, t.p.jitter, bound, bound);
    JitterUpdateBounded(t.p.jitter, bound, bound);
  }

  lemma SwingsSplit(ops: seq<Op<int>>, arrivals: seq<u32>, bound: nat)
    requires Swings(ops, arrivals, bound) && arrivals != []
    ensures var n := |arrivals| - 1;
      && Swings(ops[..2 * n], arrivals[..n], bound) && arrivals[n] >= 1
      && ops == ops[..2 * n] + [SwingPut(arrivals[n])] + [Drain]
      && (n > 0 ==> Deviation(arrivals[n], arrivals[n-1]) == bound)
  {
  }

  function LastArrival(arrivals: seq<u32>): u32 {
    if arrivals == [] then 0 else arrivals[|arrivals| - 1]
  }

  lemma {:induction false} SwingRun(s: State<int>, ops: seq<Op<int>>, arrivals: seq<u32>, bound: nat)
    returns (t: State<int>)
    requires 1 <= bound && 16 * bound < 0x1_0000_0000 && Swings(ops, arrivals, bound) && Swung(s, 0, bound, 0)
    requires s.cfg.srate > 0 && Counts(s.cfg, bound)
    ensures Leads(s, ops, t, bound) && t.cfg == s.cfg && Swung(t, LastArrival(arrivals), bound, |arrivals|)
    decreases |arrivals|
  {
    t := s;
    if arrivals != [] {
      var n := |arrivals| - 1;
      SwingsSplit(ops, arrivals, bound);
      t := SwingRun(s, ops[..2 * n], arrivals[..n], bound);
      t := SwungNext(s, ops[..2 * n], t, arrivals[n], LastArrival(arrivals[..n]), bound, n);
    }
  }

  /**
   * The bound of `RunCalm` is the best possible one: for every adaptive
   * configuration in which a deviation of D counts, the accumulator of a new
   * buffer reaches 16 D - 8 by deviations of D and keeps it for as long as they
   * last.
   */
  lemma PeakReachedAndKept(cfg: Config, ops: seq<Op<int>>, arrivals: seq<u32>, bound: nat)
    requires cfg.maxsz >= 1 && cfg.srate > 0 && cfg.jbtype.Adaptive?
    requires 1 <= bound && 16 * bound < 0x1_0000_0000 && Counts(cfg, bound)
    requires Swings(ops, arrivals, bound) && |arrivals| >= 16 * bound - 7
    ensures BoundedRun(Init(cfg), ops, bound)
    ensures Exec(Init(cfg), ops).p.jitter == 16 * bound - 8
  {
    var t := SwingRun(Init(cfg), ops, arrivals, bound);
  }

  lemma PushDeviation(last: u32, d: s32)
    requires 1 <= last < 0x4000_0000 && 0 <= d <= LARGEST
    ensures var next: int := if last > d then last - d else last + d;
      1 <= next < 0x4000_0000 && Deviation(next, last) == d
  {
    var x: int := d;
    S32Residue(x, x, 0);
    S32Residue(-x, -x, 0);
  }

  /** There are such arrivals, as many as one likes. */
  lemma {:induction false} SwingsExist(bound: s32, n: nat) returns (ops: seq<Op<int>>, arrivals: seq<u32>)
    requires 0 <= bound <= LARGEST
    ensures Swings(ops, arrivals, bound) && |arrivals| == n
    ensures LastArrival(arrivals) < 0x4000_0000
  {
    ops, arrivals := [], [];
    if n > 0 {
      ops, arrivals := SwingsExist(bound, n - 1);
      var last := LastArrival(arrivals);
      var next: u32 := if n == 1 then 1 else if last > bound then last - bound else last + bound;
      if n > 1 {
        PushDeviation(last, bound);
      }
      ops, arrivals := ops + [SwingPut(next)] + [Drain], arrivals + [next];
    }
  }

  // ---------------------------------------------------------------- the rounding term wraps

  /** A run, where it leads to, and the last arrival. */
  datatype Spot = Spot(ops: seq<Op<int>>, t: State<int>, last: u32)

  /** The run feeds no deviation above 2^28 and leads to an idle buffer with this accumulator. */
  predicate IsAt(s: State<int>, k: Spot, acc: u32)
    requires Sized(s)
  {
    Leads(s, k.ops, k.t, LARGEST) && k.t.cfg == s.cfg && Swinging(k.t, k.last, acc) && 1 <= k.last < 0x4000_0000
  }

  /** One more packet with a deviation of `d`, which takes the accumulator to `acc'`. */
  lemma Push(s: State<int>, k: Spot, acc: u32, d: s32, acc': u32) returns (k': Spot)
    requires Sized(s) && s.cfg.srate > 0 && IsAt(s, k, acc) && JitterUpdate(acc, d) == acc'
    requires 0 <= d <= LARGEST && Counts(s.cfg, d)
    ensures IsAt(s, k', acc')
  {
    PushDeviation(k.last, d);
    var next: u32 := if k.last > d then k.last - d else k.last + d;
    var t := SwingMore(s, k.ops, k.t, next, k.last, acc, d, LARGEST);
    k' := Spot(k.ops + [SwingPut(next)] + [Drain], t, next);
  }

  lemma Climb(acc: u32)
    requires acc < 0xFFFF_FFF8
    ensures acc < JitterUpdate(acc, LARGEST) <= 0xFFFF_FFF8
  {
    JitterExact(acc, LARGEST, LARGEST);
    W32Residue(acc + 8, acc + 8, 0);
    W32Residue(acc + LARGEST - (acc + 8) / 16, acc + LARGEST - (acc + 8) / 16, 0);
  }

  /** Deviations of 2^28 take the accumulator to 2^32 - 8 exactly. */
  lemma {:induction false} ClimbToTop(s: State<int>, k: Spot, acc: u32) returns (k': Spot)
    requires Sized(s) && s.cfg.srate > 0 && Counts(s.cfg, LARGEST) && IsAt(s, k, acc) && acc <= 0xFFFF_FFF8
    ensures IsAt(s, k', 0xFFFF_FFF8)
    decreases 0xFFFF_FFF8 - acc
  {
    k' := k;
    if acc < 0xFFFF_FFF8 {
      Climb(acc);
      var next := JitterUpdate(acc, LARGEST);
      k' := Push(s, k, acc, LARGEST, next);
      k' := ClimbToTop(s, k', next);
    }
  }

  lemma FirstPacket(s: State<int>) returns (k: Spot)
    requires Swinging(s, 0, 0)
    ensures IsAt(s, k, 0)
  {
    assert Leads(s, [], s, LARGEST);
    var t := SwingMore(s, [], s, 1, 0, 0, 0, LARGEST);
    k := Spot([] + [SwingPut(1)] + [Drain], t, 1);
  }

  lemma LastStep()
    ensures JitterUpdate(0xFFFF_FFF8, 7) == 0xFFFF_FFFF
  {
  }

  lemma PastTop(s: State<int>) returns (k: Spot)
    requires Swinging(s, 0, 0) && Counts(s.cfg, LARGEST) && Counts(s.cfg, 7)
    ensures IsAt(s, k, 0xFFFF_FFFF)
  {
    k := FirstPacket(s);
    k := ClimbToTop(s, k, 0);
    LastStep();
    k := Push(s, k, 0xFFFF_FFF8, 7, 0xFFFF_FFFF);
  }

  /** Where deviations of 2^28 and of 7 count, a run takes the accumulator past 16 D - 8 with D = 2^28. */
  lemma RoundingWraps(cfg: Config) returns (ops: seq<Op<int>>)
    requires cfg.maxsz >= 1 && Wraps(cfg)
    ensures BoundedRun(Init(cfg), ops, LARGEST)
    ensures Exec(Init(cfg), ops).p.jitter == 0xFFFF_FFFF > 16 * LARGEST - 8
  {
    var k := PastTop(Init(cfg));
    ops := k.ops;
  }

  /**
   * Exactly when the sharp bound holds for deviations of at most 2^28: all runs
   * of a configuration keep it if and only if the rounding term cannot wrap.
   */
  lemma LargestKeptIff(cfg: Config)
    requires cfg.maxsz >= 1
    ensures
      (forall ops: seq<Op<int>> :: BoundedRun(Init(cfg), ops, LARGEST) ==>
         Exec(Init(cfg), ops).p.jitter <= 16 * LARGEST - 8)
      <==> !Wraps(cfg)
  {
    if Wraps(cfg) {
      var ops := RoundingWraps(cfg);
    } else {
      forall ops: seq<Op<int>> | BoundedRun(Init(cfg), ops, LARGEST)
        ensures Exec(Init(cfg), ops).p.jitter <= 16 * LARGEST - 8
      {
        RunCalm(cfg, ops, LARGEST);
      }
    }
  }
}
