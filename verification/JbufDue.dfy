/**
 * When a packet counts as due.  `jbuf_get` compares the playout time with the
 * playout clock as plain 32-bit words.  A header's `x` is its extended timestamp,
 * as in `JbufTiming`; the words are residues of true times, and comparing them is
 * right exactly as long as both times lie in the same cycle.
 */
module JbufDue {
  import opened Words
  import opened JbufModel
  import opened JbufRun
  import opened JbufTiming
  import JbufOrder
  import Receiver

  const CYCLE := 0x1_0000_0000

  predicate SameCycle(p: int, t: int) { p / CYCLE == t / CYCLE }

  /** Comparing residues of times less than a cycle apart is right if and only if they lie in the same cycle. */
  lemma ComparisonExactIff(p: int, t: int)
    requires -CYCLE < p - t < CYCLE
    ensures (W32(p) <= W32(t) <==> p <= t) <==> SameCycle(p, t)
  {
    assert p == W32(p) + CYCLE * (p / CYCLE) && t == W32(t) + CYCLE * (t / CYCLE);
  }

  /** The earliest time at which the packet may play. */
  function Earliest(cfg: Config, f: Packet<int>, w: Window): int { f.hdr.x + w.lo + MinLat(cfg) }

  /** The time that a playout time stands for: the first one from the earliest on that reads so. */
  function TrueTime(cfg: Config, f: Packet<int>, w: Window): int {
    Earliest(cfg, f, w) + W32(f.playout - Earliest(cfg, f, w))
  }

  lemma ReadBack(playout: u32, from: int)
    ensures W32(from + W32(playout - from)) == playout
  {
    W32Absorb(playout - from, from);
    W32Residue(playout, playout, 0);
  }

  /** A punctual packet is to be played at its true time, which its playout time reads. */
  lemma TrueTimeExact(cfg: Config, f: Packet<int>, w: Window, lastArrival: int)
    requires Punctual(cfg, f, w, lastArrival)
    ensures W32(TrueTime(cfg, f, w)) == f.playout
    ensures Earliest(cfg, f, w) <= TrueTime(cfg, f, w) <= f.hdr.tsArrive + MaxLat(cfg)
  {
    ReadBack(f.playout, Earliest(cfg, f, w));
  }

  predicate Near(cfg: Config, f: Packet<int>, w: Window, t: int) {
    -CYCLE < TrueTime(cfg, f, w) - t < CYCLE
  }

  predicate AllNear(cfg: Config, ps: seq<Packet<int>>, w: Window, t: int) {
    forall k :: 0 <= k < |ps| ==> Near(cfg, ps[k], w, t)
  }

  /** What one comparison with the clock at time `t` says. */
  lemma DueExactIff(cfg: Config, f: Packet<int>, w: Window, lastArrival: int, t: int)
    requires Punctual(cfg, f, w, lastArrival) && Near(cfg, f, w, t)
    ensures (f.playout <= W32(t) <==> TrueTime(cfg, f, w) <= t) <==> SameCycle(TrueTime(cfg, f, w), t)
  {
    TrueTimeExact(cfg, f, w, lastArrival);
    ComparisonExactIff(TrueTime(cfg, f, w), t);
  }

  lemma GetDelivers(s: State<int>, next: u32)
    ensures GetStep(s, next).out.Some? <==> s.packets != [] && s.packets[0].playout <= next
  {
  }

  /**
   * In every timely run, `jbuf_get` at time `t` delivers the head packet just
   * when its time has come, if and only if both lie in the same cycle.
   */
  lemma RunGetExactIff(cfg: Config, w: Window, ops: seq<Op<int>>, t: int)
    requires cfg.maxsz >= 1 && SaneLatency(cfg) && w.spread < 0x8000_0000 && TimelyRun(Init(cfg), w, ops)
    requires var ps := Exec(Init(cfg), ops).packets; ps != [] && Near(cfg, ps[0], w, t)
    ensures var s := Exec(Init(cfg), ops);
      var p := TrueTime(cfg, s.packets[0], w);
      (GetStep(s, W32(t)).out.Some? <==> p <= t) <==> SameCycle(p, t)
  {
    RunTimed(cfg, w, ops);
    var s := Exec(Init(cfg), ops);
    GetDelivers(s, W32(t));
    DueExactIff(cfg, s.packets[0], w, LastArrival(ops), t);
  }

  /** How many packets at the head of the list are truly due at time `t`. */
  function TrulyDue(cfg: Config, ps: seq<Packet<int>>, w: Window, t: int): (n: nat)
    ensures n <= |ps|
  {
    if ps == [] || TrueTime(cfg, ps[0], w) > t then 0 else 1 + TrulyDue(cfg, ps[1..], w, t)
  }

  /** All packets that matter, up to the first one that is not truly due, lie in the cycle of `t`. */
  predicate AllSameCycle(cfg: Config, ps: seq<Packet<int>>, w: Window, t: int) {
    forall k :: 0 <= k < |ps| && k <= TrulyDue(cfg, ps, w, t) ==> SameCycle(TrueTime(cfg, ps[k], w), t)
  }

  lemma AllSameCycleCons(cfg: Config, ps: seq<Packet<int>>, w: Window, t: int)
    requires ps != []
    ensures AllSameCycle(cfg, ps, w, t) <==>
      && SameCycle(TrueTime(cfg, ps[0], w), t)
      && (TrueTime(cfg, ps[0], w) <= t ==> AllSameCycle(cfg, ps[1..], w, t))
  {
    var n := TrulyDue(cfg, ps, w, t);
    if TrueTime(cfg, ps[0], w) <= t {
      assert n == 1 + TrulyDue(cfg, ps[1..], w, t);
      forall k | 0 < k < |ps| && k <= n ensures ps[k] == ps[1..][k-1] {
      }
      if AllSameCycle(cfg, ps, w, t) {
        forall k | 0 <= k < |ps[1..]| && k <= n - 1 ensures SameCycle(TrueTime(cfg, ps[1..][k], w), t) {
          assert ps[1..][k] == ps[k+1];
        }
      }
    }
  }

  /** What counts as due is the prefix that is due, if and only if no cycle is left on the way. */
  lemma {:induction false} DueCountExactIff(cfg: Config, ps: seq<Packet<int>>, w: Window, lastArrival: int, t: int)
    requires AllPunctual(cfg, ps, w, lastArrival) && AllNear(cfg, ps, w, t)
    ensures Receiver.DueCount(ps, W32(t)) == TrulyDue(cfg, ps, w, t) <==> AllSameCycle(cfg, ps, w, t)
    decreases |ps|
  {
    if ps != [] {
      assert Punctual(cfg, ps[0], w, lastArrival) && Near(cfg, ps[0], w, t);
      DueExactIff(cfg, ps[0], w, lastArrival, t);
      AllSameCycleCons(cfg, ps, w, t);
      DueCountExactIff(cfg, ps[1..], w, lastArrival, t);
    }
  }

  lemma StateDueExactIff(s: State<int>, w: Window, lastArrival: int, t: int)
    requires Timed(s, w, lastArrival) && AllNear(s.cfg, s.packets, w, t)
    ensures Receiver.DueCount(s.packets, W32(t)) == TrulyDue(s.cfg, s.packets, w, t) <==>
            AllSameCycle(s.cfg, s.packets, w, t)
  {
    DueCountExactIff(s.cfg, s.packets, w, lastArrival, t);
  }

  /**
   * In every timely run, draining at time `t` handles exactly the packets whose
   * time has come, if and only if these and the one behind them lie in the same
   * cycle as `t`.
   */
  lemma RunDueExactIff(cfg: Config, w: Window, ops: seq<Op<int>>, t: int)
    requires cfg.maxsz >= 1 && SaneLatency(cfg) && w.spread < 0x8000_0000 && TimelyRun(Init(cfg), w, ops)
    requires AllNear(cfg, Exec(Init(cfg), ops).packets, w, t)
    ensures var ps := Exec(Init(cfg), ops).packets;
      Receiver.DueCount(ps, W32(t)) == TrulyDue(cfg, ps, w, t) <==> AllSameCycle(cfg, ps, w, t)
  {
    RunTimed(cfg, w, ops);
    StateDueExactIff(Exec(Init(cfg), ops), w, LastArrival(ops), t);
  }

  // ---------------------------------------------------------------- the wrap blocks the buffer

  /** Without an earlier packet the estimator asks for no latency. */
  lemma FirstAdapt(cfg: Config, p: Playout, transit: u32, cJitter: u32)
    requires cfg.srate > 0 && p.lastTransit == 0
    ensures AdaptStep(cfg, p, transit, cJitter).1 == 0
  {
  }

  lemma ClampZero(lo: u32, hi: u32)
    requires lo <= hi
    ensures Clamp(0, lo, hi) == lo
  {
  }

  lemma ArrivalPlus(arrive: u64, ts: u32, transit: u32, lat: u32, playout: u32)
    requires transit == W32(arrive - ts) && playout == W32(W32(ts + transit) + lat)
    ensures playout == W32(arrive + lat)
  {
    W32Absorb(arrive - ts, ts);
    W32Absorb(arrive, lat);
  }

  lemma FirstLatency(cfg: Config, p: Playout, transit: u32, cJitter: u32)
    requires cfg.srate > 0 && p.lastTransit == 0 && MinLat(cfg) <= MaxLat(cfg)
    ensures Clamp(AdaptStep(cfg, p, transit, cJitter).1, MinLat(cfg), MaxLat(cfg)) == MinLat(cfg)
  {
    FirstAdapt(cfg, p, transit, cJitter);
    ClampZero(MinLat(cfg), MaxLat(cfg));
  }

  /** The playout time of the first packet of a new buffer: its arrival plus the minimum delay. */
  lemma FirstPlayout(cfg: Config, st: Stats, h: Header<int>, playout: u32)
    requires cfg.srate > 0 && MinLat(cfg) <= MaxLat(cfg) && playout == PlayoutStep(cfg, ZERO_PLAYOUT, st, None, h).2
    ensures playout == W32(h.tsArrive + MinLat(cfg))
  {
    var transit := Transit(h);
    var p := ZERO_PLAYOUT.(offset := transit);
    assert OffsetStep(ZERO_PLAYOUT.offset, transit) == transit;
    FirstLatency(cfg, p, transit, st.cJitter);
    PlayoutShape(cfg, ZERO_PLAYOUT, st, h, AdaptStep(cfg, p, transit, st.cJitter));
    ArrivalPlus(h.tsArrive, h.ts, transit, MinLat(cfg), playout);
  }

  /** A packet that arrives so that it plays at 2^32 - 1. */
  function EdgePut(cfg: Config): Op<int>
    requires MinLat(cfg) < 0x8000_0000
  {
    Put(Header(1, 0, 0xFFFF_FFFF - MinLat(cfg), 7, true, 0), None, Clock(0, 0, 0))
  }

  /**
   * A buffer blocked by the wrap: its head packet plays at 2^32 - 1, but at no
   * later time before 2^33 - 1 does `jbuf_get` deliver it.
   */
  lemma WrapBlocksHead(cfg: Config, t: int)
    requires cfg.maxsz >= 1 && cfg.srate > 0 && SaneLatency(cfg) && CYCLE <= t < 2 * CYCLE - 1
    ensures MinLat(cfg) < 0x8000_0000
    ensures var s := Step(Init(cfg), EdgePut(cfg)).s;
      |s.packets| == 1 && s.packets[0].playout == 0xFFFF_FFFF && GetStep(s, W32(t)).out == None
  {
    LatencyFits(cfg);
    EdgeStored(cfg);
    W32Residue(t, t - CYCLE, 1);
    GetDelivers(Step(Init(cfg), EdgePut(cfg)).s, W32(t));
  }

  lemma EdgeStored(cfg: Config)
    requires cfg.maxsz >= 1 && cfg.srate > 0 && MinLat(cfg) <= MaxLat(cfg) < 0x8000_0000
    ensures var s := Step(Init(cfg), EdgePut(cfg)).s;
      |s.packets| == 1 && s.packets[0].playout == 0xFFFF_FFFF
  {
    var s: State<int>, op := Init(cfg), EdgePut(cfg);
    JbufOrder.PutIntoEmpty(s, op.h, op.m, op.c);
    var a := Alloc(CountPut(s.(ssrc := op.h.ssrc))).0;
    FirstPlayout(cfg, a.stat, op.h, PlayoutStep(cfg, ZERO_PLAYOUT, a.stat, None, op.h).2);
    W32Residue(0xFFFF_FFFF, 0xFFFF_FFFF, 0);
  }
}
