/**
 * Clock-skew correction in the jitter buffer: corrections are rare, whatever
 * the packets look like, and the delay estimate never leaves the range of the
 * delays that were seen.
 */
module JbufSkew {
  import opened Words
  import opened JbufModel
  import opened JbufRun

  /** The state in which a put passes the late check, after the checks before it. */
  function Checked<X>(s: State<X>, h: Header<X>): State<X> { Resynced(s, h).(ssrc := h.ssrc) }

  /** The operation stores a packet (if only for a moment): it is neither refused, late nor a duplicate. */
  predicate Admits<X>(s: State<X>, op: Op<X>)
    requires Sized(s)
  {
    && op.Put? && op.h.tsArrive != 0 && s.cfg.srate != 0 && !TooLate(Checked(s, op.h), op.h.seqno)
    && (FreeAllSize(s.packets);
        var a := Alloc(CountPut(Checked(s, op.h))).0;
        Locate(a.packets, op.h.seqno, |a.packets|).At?)
  }

  function SkewMs(p: Playout, delay: u32, srate: u32): s32
    requires srate > 0
  {
    DelayMs(S32(p.activeDelay - Estimate(p.delayEstimate, delay)), srate)
  }

  /** The skew adjustment that an operation makes, in ms. */
  function Adjustment<X>(s: State<X>, op: Op<X>): int
    requires Sized(s)
  {
    if Admits(s, op) then
      var p := Checked(s, op.h).p;
      SkewCore(p, Transit(op.h), SkewMs(p, Transit(op.h), s.cfg.srate), op.c).1
    else 0
  }

  /** Since the last flush: the clocks of the adjustments made, the delays seen; and the latest clock reading. */
  datatype Log = Log(times: seq<Clock>, delays: seq<u32>, now: u64)

  function LogStep<X>(s: State<X>, l: Log, op: Op<X>): Log
    requires Sized(s)
  {
    var l0 := if Flushes(s, op) then Log([], [], l.now) else l;
    if !op.Put? then l0 else
    Log(if Adjustment(s, op) != 0 then l0.times + [op.c] else l0.times,
        if Admits(s, op) then l0.delays + [Transit(op.h)] else l0.delays,
        op.c.store)
  }

  /** The clock does not go back. */
  predicate Monotone<X>(l: Log, op: Op<X>) {
    op.Put? ==> l.now <= op.c.check <= op.c.store
  }

  /** Any two adjustments are more than the drift window apart. */
  predicate Spaced(times: seq<Clock>) {
    forall i, j :: 0 <= i < j < |times| ==> times[j].check - times[i].store > DRIFT_WINDOW
  }

  /** Some delay seen is at most `e` and some is at least `e`. */
  predicate Spanned(delays: seq<u32>, e: u32) {
    && (exists i :: 0 <= i < |delays| && delays[i] <= e)
    && (exists j :: 0 <= j < |delays| && e <= delays[j])
  }

  predicate Tracked(p: Playout, l: Log) {
    && Spaced(l.times)
    && (forall i :: 0 <= i < |l.times| ==> l.times[i].store <= p.skewt)
    && p.skewt <= l.now
    && (l.delays == [] ==> p.activeDelay == 0)
    && (l.delays != [] ==> Spanned(l.delays, p.delayEstimate))
  }

  /** The estimate moves towards the new delay and never past it. */
  lemma EstimateBetween(e: u32, delay: u32)
    ensures e <= delay ==> e <= Estimate(e, delay) <= delay
    ensures delay <= e ==> delay <= Estimate(e, delay) <= e
  {
  }

  lemma SpannedGrows(delays: seq<u32>, e: u32, delay: u32)
    requires Spanned(delays, e)
    ensures Spanned(delays + [delay], Estimate(e, delay))
  {
    EstimateBetween(e, delay);
    var r := delays + [delay];
    var i :| 0 <= i < |delays| && delays[i] <= e;
    var j :| 0 <= j < |delays| && e <= delays[j];
    assert r[i] == delays[i] && r[j] == delays[j] && r[|delays|] == delay;
  }

  lemma SpacedSnoc(times: seq<Clock>, c: Clock, skewt: u64)
    requires Spaced(times) && c.check - skewt > DRIFT_WINDOW
    requires forall i :: 0 <= i < |times| ==> times[i].store <= skewt
    ensures Spaced(times + [c])
  {
  }

  lemma FirstSpanned(delay: u32)
    ensures Spanned([delay], delay)
  {
    assert [delay][0] == delay;
  }

  /** Only three of the playout values matter, and the clock may go on. */
  lemma TrackedSame(p: Playout, q: Playout, l: Log, now: u64)
    requires Tracked(p, l) && l.now <= now
    requires p.skewt == q.skewt && p.activeDelay == q.activeDelay && p.delayEstimate == q.delayEstimate
    ensures Tracked(q, l.(now := now))
  {
  }

  lemma DelaysSpanned(p: Playout, delay: u32, l: Log)
    requires Tracked(p, l)
    ensures Spanned(l.delays + [delay], if p.activeDelay == 0 then delay else Estimate(p.delayEstimate, delay))
  {
    if p.activeDelay == 0 {
      FirstSpanned(delay);
      var r := l.delays + [delay];
      assert r[|l.delays|] == delay;
    } else {
      SpannedGrows(l.delays, p.delayEstimate, delay);
    }
  }

  /** The core of the argument: one update of `adjust_due_to_skew`. */
  lemma SkewCoreTracked(p: Playout, delay: u32, skewMs: s32, c: Clock, l: Log)
    requires Tracked(p, l) && l.now <= c.check <= c.store
    ensures var (p', adjust) := SkewCore(p, delay, skewMs, c);
      Tracked(p', Log(if adjust != 0 then l.times + [c] else l.times, l.delays + [delay], c.store))
  {
    DelaysSpanned(p, delay, l);
    W64Exact(c.check - p.skewt);
    if p.activeDelay != 0 && c.check - p.skewt > DRIFT_WINDOW {
      SpacedSnoc(l.times, c, p.skewt);
    }
  }

  /** Playout and skew use disjoint parts of the playout values. */
  lemma PlayoutKeepsSkew<X>(cfg: Config, p: Playout, st: Stats, prev: Option<Packet<X>>, h: Header<X>)
    requires cfg.srate > 0
    ensures var r := PlayoutStep(cfg, p, st, prev, h).0;
      && r.skewt == p.skewt && r.activeDelay == p.activeDelay
      && r.delayEstimate == p.delayEstimate && r.maxSkewMs == p.maxSkewMs
  {
  }

  lemma AdmitSkew<X>(b: State<X>, cell: Cell, i: nat, h: Header<X>, m: Option<Mem>, c: Clock)
    requires i <= |b.packets| && b.cfg.srate > 0
    ensures var (p, adjust) := SkewCore(b.p, Transit(h), SkewMs(b.p, Transit(h), b.cfg.srate), c);
      var (r, err) := Admit(b, cell, i, h, m, c);
      && r.p.skewt == p.skewt && r.p.activeDelay == p.activeDelay && r.p.delayEstimate == p.delayEstimate
      && (err == ETIME <==> adjust < 0)
  {
    PlayoutKeepsSkew(b.cfg, b.p, b.stat, Before(b.packets, i), h);
  }

  /** While the drift window has not passed, nothing is dropped. */
  lemma AdmitWithoutSkew<X>(b: State<X>, cell: Cell, i: nat, h: Header<X>, m: Option<Mem>, c: Clock)
    requires i <= |b.packets| && b.cfg.srate > 0 && c.check == c.store == b.p.skewt
    ensures Admit(b, cell, i, h, m, c).1 == Ok && Admit(b, cell, i, h, m, c).0.p.skewt == b.p.skewt
  {
    AdmitSkew(b, cell, i, h, m, c);
    W64Exact(0);
    var (p, adjust) := SkewCore(b.p, Transit(h), SkewMs(b.p, Transit(h), b.cfg.srate), c);
    assert adjust == 0 && p.skewt == b.p.skewt;
  }

  /** A put is dropped for skew exactly when the adjustment is negative. */
  lemma PutSkew<X>(s: State<X>, op: Op<X>)
    requires Sized(s) && op.Put?
    ensures var r := PutStep(s, op.h, op.m, op.c);
      && (r.err == ETIME <==> Adjustment(s, op) < 0)
      && (Admits(s, op) ==>
            var p0 := Checked(s, op.h).p;
            var p := SkewCore(p0, Transit(op.h), SkewMs(p0, Transit(op.h), s.cfg.srate), op.c).0;
            r.s.p.skewt == p.skewt && r.s.p.activeDelay == p.activeDelay && r.s.p.delayEstimate == p.delayEstimate)
      && (!Admits(s, op) ==>
            var p := if Flushes(s, op) then ZERO_PLAYOUT else s.p;
            r.s.p.skewt == p.skewt && r.s.p.activeDelay == p.activeDelay && r.s.p.delayEstimate == p.delayEstimate)
  {
    if Admits(s, op) {
      FreeAllSize(s.packets);
      var (a, cell) := Alloc(CountPut(Checked(s, op.h)));
      var i := Locate(a.packets, op.h.seqno, |a.packets|).i;
      AdmitSkew(Announce(a, i, op.h.seqno).0, cell, i, op.h, op.m, op.c);
    }
  }

  /** A put with a monotone clock keeps the corrections rare and the estimate inside. */
  lemma PutTracked<X>(s: State<X>, l: Log, op: Op<X>)
    requires Sized(s) && op.Put? && Tracked(s.p, l) && Monotone(l, op)
    ensures Tracked(PutStep(s, op.h, op.m, op.c).s.p, LogStep(s, l, op))
  {
    PutSkew(s, op);
    var after := PutStep(s, op.h, op.m, op.c).s.p;
    var l0 := if Flushes(s, op) then Log([], [], l.now) else l;
    if Admits(s, op) {
      var p := Checked(s, op.h).p;
      var r := SkewCore(p, Transit(op.h), SkewMs(p, Transit(op.h), s.cfg.srate), op.c);
      SkewCoreTracked(p, Transit(op.h), SkewMs(p, Transit(op.h), s.cfg.srate), op.c, l0);
      TrackedSame(r.0, after, LogStep(s, l, op), op.c.store);
    } else {
      TrackedSame(if Flushes(s, op) then ZERO_PLAYOUT else s.p, after, l0, op.c.store);
    }
  }

  lemma StepTracked<X>(s: State<X>, l: Log, op: Op<X>)
    requires Sized(s) && Tracked(s.p, l) && Monotone(l, op)
    ensures Tracked(Step(s, op).s.p, LogStep(s, l, op))
  {
    if op.Put? {
      PutTracked(s, l, op);
    }
  }

  function LogOf<X>(s: State<X>, ops: seq<Op<X>>): Log
    requires Sized(s)
    decreases |ops|
  {
    if ops == [] then Log([], [], 0) else LogStep(Exec(s, Front(ops)), LogOf(s, Front(ops)), Last(ops))
  }

  predicate MonotoneRun<X>(s: State<X>, ops: seq<Op<X>>)
    requires Sized(s)
    decreases |ops|
  {
    ops == [] || (MonotoneRun(s, Front(ops)) && Monotone(LogOf(s, Front(ops)), Last(ops)))
  }

  /**
   * In every run with a monotone clock, skew adjustments between two flushes
   * are more than ten seconds apart, and the delay estimate lies between the
   * smallest and the largest delay seen.
   */
  lemma {:induction false} RunTracked<X>(cfg: Config, ops: seq<Op<X>>)
    requires cfg.maxsz >= 1 && MonotoneRun(Init(cfg), ops)
    ensures Tracked(Exec(Init(cfg), ops).p, LogOf(Init(cfg), ops))
    decreases |ops|
  {
    if ops != [] {
      RunTracked(cfg, Front(ops));
      StepTracked(Exec(Init(cfg), Front(ops)), LogOf(Init(cfg), Front(ops)), Last(ops));
    }
  }
}
