/**
 * The transmit pacer of `vtx_thread` in src/video.c: a leaky bucket in whole
 * microseconds with two kinds of resets.  The proof follows one quantity that
 * the code never computes, the virtual send time scaled by the bitrate; the
 * resets only ever raise it.
 */
module Pacer {
  import opened Words
  import opened Division

  const PKT_SIZE := 1280
  const MAX_BITS := PKT_SIZE * 8
  const USEC := 1000000

  datatype Rate = Rate(bitrate: u32, burstBits: u32)

  function MaxDelay(r: Rate): nat
    requires r.bitrate > 0
  {
    MAX_BITS * USEC / r.bitrate + 1
  }

  function MaxBurst(r: Rate): nat
    requires r.bitrate > 0
  {
    r.burstBits * USEC / r.bitrate
  }

  /** start_jfs, target_jfs and sent. */
  datatype Bucket = Bucket(start: u64, target: u64, sent: u64)

  /** One packet: the clock reading of its iteration, the time when it goes out and its size. */
  datatype Tick = Tick(jfs: u64, sendTime: u64, bits: u64)

  /** The sleep asked for and the two resets. */
  function Throttle(r: Rate, b: Bucket, jfs: u64): (Bucket, u32)
    requires r.bitrate > 0
  {
    if jfs < b.target then
      var delay := b.target - jfs;
      if delay > MaxDelay(r) then (b.(start := W64(jfs + MaxDelay(r)), sent := 0), W32(MaxDelay(r)))
      else (b, W32(delay))
    else if W64(jfs - MaxBurst(r)) > b.target then (b.(start := W64(jfs - MaxBurst(r)), sent := 0), 0)
    else (b, 0)
  }

  /** The accounting of a packet of `bits` bits. */
  function Charge(r: Rate, b: Bucket, bits: u64): Bucket
    requires r.bitrate > 0
  {
    var sent := W64(b.sent + bits);
    Bucket(b.start, W64(b.start + W64(sent * USEC) / r.bitrate), sent)
  }

  function PaceStep(r: Rate, b: Bucket, t: Tick): Bucket
    requires r.bitrate > 0
  {
    Charge(r, Throttle(r, b, t.jfs).0, t.bits)
  }

  /** The bucket before iteration `k`. */
  function BucketAt(r: Rate, b: Bucket, ts: seq<Tick>, k: nat): Bucket
    requires r.bitrate > 0 && k <= |ts|
  {
    if k == 0 then b else PaceStep(r, BucketAt(r, b, ts, k - 1), ts[k-1])
  }

  /** The bits of packets `i` to `j - 1`. */
  function Bits(ts: seq<Tick>, i: nat, j: nat): nat
    requires i <= j <= |ts|
    decreases j
  {
    if i == j then 0 else Bits(ts, i, j - 1) + ts[j-1].bits
  }

  /**
   * What the pacer may rely on in iteration `k`: a clock that does not go back
   * and has reached max_burst, a sleep that is not shorter than asked for, and a
   * packet of at most PKT_SIZE whole octets.  The bits sent since the last
   * reset, in microbits, fit the 64-bit counter.
   */
  predicate ValidTick(r: Rate, b: Bucket, ts: seq<Tick>, k: nat)
    requires r.bitrate > 0 && k < |ts|
  {
    && MaxBurst(r) <= ts[k].jfs < 0x8000_0000_0000_0000
    && ts[k].bits <= MAX_BITS && ts[k].bits % 8 == 0
    && (if k == 0 then b.target else ts[k-1].sendTime) <= ts[k].jfs
    && var (c, sleep) := Throttle(r, BucketAt(r, b, ts, k), ts[k].jfs);
       ts[k].jfs + sleep <= ts[k].sendTime && (c.sent + ts[k].bits) * USEC < 0x1_0000_0000_0000_0000
  }

  /**
   * A run of the thread.  The two clock readings that initialize start_jfs and
   * target_jfs are taken one after the other.
   */
  predicate Valid(r: Rate, b: Bucket, ts: seq<Tick>) {
    && r.bitrate > 0
    && b.start <= b.target && b.sent == 0
    && (forall k :: 0 <= k < |ts| ==> ValidTick(r, b, ts, k))
  }

  // ---------------------------------------------------------------- the virtual send time

  /** The virtual send time, scaled by the bitrate: start plus the time that `sent` bits take. */
  function Virtual(r: Rate, b: Bucket): nat { b.start * r.bitrate + b.sent * USEC }

  /** The target is the virtual send time in whole microseconds. */
  predicate OnTarget(r: Rate, b: Bucket)
    requires r.bitrate > 0
  {
    b.target == Virtual(r, b) / r.bitrate
  }

  lemma ChargeNoWrap(r: Rate, b: Bucket, bits: u64)
    requires r.bitrate >= 3 && b.start < 0x8000_0000_0000_0000
    requires (b.sent + bits) * USEC < 0x1_0000_0000_0000_0000
    ensures var c := Charge(r, b, bits);
      c.start == b.start && c.sent == b.sent + bits && c.target == b.start + c.sent * USEC / r.bitrate
  {
    var sent := b.sent + bits;
    W64Exact(sent);
    W64Exact(sent * USEC);
    SpanFits(sent * USEC, r.bitrate);
    W64Exact(b.start + sent * USEC / r.bitrate);
  }

  lemma ChargeExact(r: Rate, b: Bucket, bits: u64)
    requires r.bitrate >= 3 && b.start < 0x8000_0000_0000_0000
    requires (b.sent + bits) * USEC < 0x1_0000_0000_0000_0000
    ensures var c := Charge(r, b, bits);
      c.start == b.start && OnTarget(r, c) && Virtual(r, c) == Virtual(r, b) + bits * USEC
  {
    ChargeNoWrap(r, b, bits);
    FloorShift(b.start, (b.sent + bits) * USEC, r.bitrate);
  }

  lemma SpanFits(a: u64, r: nat)
    requires r >= 3
    ensures a / r < 0x8000_0000_0000_0000
  {
    var limit := 0x7FFF_FFFF_FFFF_FFFF;
    assert (limit + 1) * 3 <= (limit + 1) * r;
    FloorAtMost(a, r, limit);
  }

  lemma DelayFits(r: Rate)
    requires r.bitrate >= 3
    ensures MaxDelay(r) < 0x1_0000_0000
  {
    assert 3413333334 * 3 <= 3413333334 * r.bitrate;
    FloorAtMost(MAX_BITS * USEC, r.bitrate, 3413333333);
  }

  /** The target trails no further than max_delay behind the clock, so the cap does not fire. */
  predicate WithinDelay(r: Rate, b: Bucket, jfs: u64)
    requires r.bitrate > 0
  {
    b.target <= jfs + MaxDelay(r)
  }

  /** The sleep: a packet does not leave before its target. */
  lemma NotBeforeTarget(r: Rate, b: Bucket, t: Tick)
    requires r.bitrate >= 3 && WithinDelay(r, b, t.jfs)
    requires t.jfs + Throttle(r, b, t.jfs).1 <= t.sendTime
    ensures b.target <= t.sendTime
  {
    DelayFits(r);
  }

  lemma BelowNext(v: nat, r: nat, time: nat)
    requires r > 0 && v / r <= time
    ensures v < (time + 1) * r
  {
    Floor(v, r);
    assert (v / r + 1) * r <= (time + 1) * r;
  }

  /** Resets only raise the virtual send time, to within a burst of the clock. */
  lemma ThrottleRaises(r: Rate, b: Bucket, t: Tick)
    requires r.bitrate >= 3 && OnTarget(r, b) && WithinDelay(r, b, t.jfs)
    requires MaxBurst(r) <= t.jfs
    ensures var c := Throttle(r, b, t.jfs).0;
      && Virtual(r, b) <= Virtual(r, c)
      && (t.jfs - MaxBurst(r)) * r.bitrate <= Virtual(r, c)
      && (c == b || (c.start == t.jfs - MaxBurst(r) && c.sent == 0))
  {
    var floor := t.jfs - MaxBurst(r);
    if t.jfs < b.target || floor <= b.target {
      Floor(Virtual(r, b), r.bitrate);
      assert floor * r.bitrate <= b.target * r.bitrate;
    } else {
      BelowNext(Virtual(r, b), r.bitrate, floor - 1);
    }
  }

  /** After a packet of legal size the next target is at most max_delay away: the "+ 1" pays for the floors. */
  lemma ChargeWithinDelay(r: Rate, v: nat, bits: nat, time: nat)
    requires r.bitrate >= 3 && bits <= MAX_BITS && v / r.bitrate <= time
    ensures (v + bits * USEC) / r.bitrate <= time + MaxDelay(r)
  {
    FloorSum(v, bits * USEC, r.bitrate);
    FloorMonotone(bits * USEC, MAX_BITS * USEC, r.bitrate);
  }

  // ---------------------------------------------------------------- runs

  /** What holds before iteration `k` of a run. */
  predicate Paced(r: Rate, b: Bucket, ts: seq<Tick>, k: nat)
    requires r.bitrate > 0 && k <= |ts|
  {
    var c := BucketAt(r, b, ts, k);
    && c.start < 0x8000_0000_0000_0000
    && (k > 0 ==> OnTarget(r, c) && c.target <= ts[k-1].sendTime + MaxDelay(r))
    && (k == 0 ==> c == b)
  }

  /**
   * The first clock reading falls into the gap that the two initial readings
   * leave: the credit since start_jfs is more than a burst, but target_jfs is
   * too recent for the reset that would take it away.
   */
  predicate InGap(r: Rate, b: Bucket, jfs: u64)
    requires r.bitrate > 0
  {
    b.start + MaxBurst(r) < jfs <= b.target + MaxBurst(r)
  }

  /** The credit beyond a burst, in microseconds, that the first packet of a run finds. */
  function Surplus(r: Rate, b: Bucket, jfs: u64): nat
    requires r.bitrate > 0
  {
    if InGap(r, b, jfs) then jfs - MaxBurst(r) - b.start else 0
  }

  function Slack(r: Rate, b: Bucket, ts: seq<Tick>, k: nat): nat
    requires r.bitrate > 0 && k < |ts|
  {
    if k == 0 then Surplus(r, b, ts[0].jfs) else 0
  }

  /** One iteration after the first: no debt is dropped, no early send, and credit is bounded. */
  lemma NextStep(r: Rate, c: Bucket, t: Tick)
    requires r.bitrate >= 3 && OnTarget(r, c) && c.start < 0x8000_0000_0000_0000 && WithinDelay(r, c, t.jfs)
    requires MaxBurst(r) <= t.jfs < 0x8000_0000_0000_0000 && t.bits <= MAX_BITS
    requires t.jfs + Throttle(r, c, t.jfs).1 <= t.sendTime
    requires (Throttle(r, c, t.jfs).0.sent + t.bits) * USEC < 0x1_0000_0000_0000_0000
    ensures var d := PaceStep(r, c, t);
      && OnTarget(r, d) && d.start < 0x8000_0000_0000_0000 && d.target <= t.sendTime + MaxDelay(r)
      && Virtual(r, c) + t.bits * USEC <= Virtual(r, d)
      && (t.jfs - MaxBurst(r)) * r.bitrate + t.bits * USEC <= Virtual(r, d)
      && Virtual(r, c) < (t.sendTime + 1) * r.bitrate
  {
    var e := Throttle(r, c, t.jfs).0;
    NotBeforeTarget(r, c, t);
    ThrottleRaises(r, c, t);
    BelowNext(Virtual(r, c), r.bitrate, t.sendTime);
    ChargeExact(r, e, t.bits);
    assert Virtual(r, e) / r.bitrate <= t.sendTime by {
      if e != c {
        FloorShift(e.start, 0, r.bitrate);
      }
    }
    ChargeWithinDelay(r, Virtual(r, e), t.bits, t.sendTime);
  }

  /** The first iteration: the clock has reached the target, but the credit may be larger by the surplus. */
  lemma FirstStep(r: Rate, b: Bucket, t: Tick)
    requires r.bitrate >= 3 && b.start <= b.target <= t.jfs <= t.sendTime && b.sent == 0
    requires MaxBurst(r) <= t.jfs < 0x8000_0000_0000_0000 && t.bits <= MAX_BITS
    ensures var d := PaceStep(r, b, t);
      && OnTarget(r, d) && d.start < 0x8000_0000_0000_0000 && d.target <= t.sendTime + MaxDelay(r)
      && Virtual(r, b) + t.bits * USEC <= Virtual(r, d)
      && (t.jfs - MaxBurst(r) - Surplus(r, b, t.jfs)) * r.bitrate + t.bits * USEC <= Virtual(r, d)
      && Virtual(r, b) < (t.sendTime + 1) * r.bitrate
  {
    FirstThrottle(r, b, t);
    FirstCharge(r, b, Throttle(r, b, t.jfs).0, t, t.jfs - MaxBurst(r) - Surplus(r, b, t.jfs));
  }

  lemma FirstCharge(r: Rate, b: Bucket, e: Bucket, t: Tick, credit: int)
    requires r.bitrate >= 3 && b.sent == e.sent == 0 && t.bits <= MAX_BITS
    requires b.start <= e.start <= t.sendTime && credit <= e.start < 0x8000_0000_0000_0000
    ensures var d := Charge(r, e, t.bits);
      && OnTarget(r, d) && d.start < 0x8000_0000_0000_0000 && d.target <= t.sendTime + MaxDelay(r)
      && Virtual(r, b) + t.bits * USEC <= Virtual(r, d)
      && credit * r.bitrate + t.bits * USEC <= Virtual(r, d)
      && Virtual(r, b) < (t.sendTime + 1) * r.bitrate
  {
    ChargeExact(r, e, t.bits);
    assert Virtual(r, e) / r.bitrate == e.start by { FloorShift(e.start, 0, r.bitrate); }
    ChargeWithinDelay(r, Virtual(r, e), t.bits, t.sendTime);
    Scaled(b.start, e.start, r.bitrate);
    Scaled(credit, e.start, r.bitrate);
    Scaled(b.start, t.sendTime, r.bitrate);
    Distribute(t.sendTime, 1, r.bitrate);
  }

  lemma FirstThrottle(r: Rate, b: Bucket, t: Tick)
    requires r.bitrate >= 3 && b.start <= b.target <= t.jfs && b.sent == 0 && MaxBurst(r) <= t.jfs
    ensures var e := Throttle(r, b, t.jfs).0;
      e.sent == 0 && b.start <= e.start <= t.jfs && t.jfs - MaxBurst(r) - Surplus(r, b, t.jfs) <= e.start
  {
    W64Exact(t.jfs - MaxBurst(r));
  }

  /** A burst before the clock reading of iteration `k`, less the slack, scaled by the bitrate. */
  function Credit(r: Rate, b: Bucket, ts: seq<Tick>, k: nat): int
    requires r.bitrate > 0 && k < |ts|
  {
    (ts[k].jfs - MaxBurst(r) - Slack(r, b, ts, k)) * r.bitrate
  }

  /** What one iteration of a run does to the virtual send time. */
  predicate Advances(r: Rate, b: Bucket, ts: seq<Tick>, k: nat)
    requires r.bitrate > 0 && k < |ts|
  {
    var u, v := Virtual(r, BucketAt(r, b, ts, k)), Virtual(r, BucketAt(r, b, ts, k + 1));
    && u + ts[k].bits * USEC <= v
    && Credit(r, b, ts, k) + ts[k].bits * USEC <= v
    && u < (ts[k].sendTime + 1) * r.bitrate
  }

  lemma StepPaced(r: Rate, b: Bucket, ts: seq<Tick>, k: nat)
    requires r.bitrate >= 3 && Valid(r, b, ts) && k < |ts| && Paced(r, b, ts, k)
    ensures Paced(r, b, ts, k + 1) && Advances(r, b, ts, k)
    ensures WithinDelay(r, BucketAt(r, b, ts, k), ts[k].jfs)
  {
    assert ValidTick(r, b, ts, k);
    if k == 0 {
      FirstStep(r, b, ts[0]);
    } else {
      NextStep(r, BucketAt(r, b, ts, k), ts[k]);
    }
  }

  lemma {:induction false} RunPaced(r: Rate, b: Bucket, ts: seq<Tick>, k: nat)
    requires r.bitrate >= 3 && Valid(r, b, ts) && k <= |ts| && b.start < 0x8000_0000_0000_0000
    ensures Paced(r, b, ts, k)
  {
    if k > 0 {
      RunPaced(r, b, ts, k - 1);
      StepPaced(r, b, ts, k - 1);
    }
  }

  /** Before iteration `j`, the virtual send time accounts for all bits since iteration `i`. */
  lemma {:induction false} Accumulated(r: Rate, b: Bucket, ts: seq<Tick>, i: nat, j: nat)
    requires r.bitrate >= 3 && Valid(r, b, ts) && i < j <= |ts| && b.start < 0x8000_0000_0000_0000
    ensures Credit(r, b, ts, i) + Bits(ts, i, j) * USEC <= Virtual(r, BucketAt(r, b, ts, j))
    decreases j
  {
    RunPaced(r, b, ts, j - 1);
    StepPaced(r, b, ts, j - 1);
    if i < j - 1 {
      Accumulated(r, b, ts, i, j - 1);
    }
  }

  /** The burst allowance, in whole microseconds, is worth at most the configured bits. */
  lemma BurstWorth(r: Rate)
    requires r.bitrate > 0
    ensures MaxBurst(r) * r.bitrate <= r.burstBits * USEC
  {
    Floor(r.burstBits * USEC, r.bitrate);
  }

  lemma StartFits(r: Rate, b: Bucket, ts: seq<Tick>)
    requires Valid(r, b, ts) && ts != []
    ensures b.start < 0x8000_0000_0000_0000
  {
    assert ValidTick(r, b, ts, 0);
  }

  lemma SpanWorth(bits: nat, v: nat, time: int, from: int, burst: int, slack: int, r: nat)
    requires (from - burst - slack) * r + bits * USEC <= v < (time + 1) * r
    ensures bits * USEC <= (time - from + 1 + slack) * r + burst * r
  {
    assert (time + 1) * r == (time - from + 1 + slack) * r + (from - burst - slack) * r + burst * r;
  }

  /**
   * What the bitrate allows between the clock reading of iteration `i` and the
   * departure of packet `j`, one microsecond more, in microbits.  A window that
   * starts with the very first packet gains the surplus that it finds.
   */
  function Allowance(r: Rate, b: Bucket, ts: seq<Tick>, i: nat, j: nat): int
    requires r.bitrate > 0 && i <= j < |ts|
  {
    (ts[j].sendTime - ts[i].jfs + 1 + Slack(r, b, ts, i)) * r.bitrate
  }

  lemma WindowBound(r: Rate, b: Bucket, ts: seq<Tick>, i: nat, j: nat)
    requires r.bitrate >= 3 && Valid(r, b, ts) && i < j < |ts|
    ensures Bits(ts, i, j) * USEC <= Allowance(r, b, ts, i, j) + r.burstBits * USEC
  {
    StartFits(r, b, ts);
    RunPaced(r, b, ts, j);
    StepPaced(r, b, ts, j);
    Accumulated(r, b, ts, i, j);
    BurstWorth(r);
    SpanWorth(Bits(ts, i, j), Virtual(r, BucketAt(r, b, ts, j)), ts[j].sendTime, ts[i].jfs, MaxBurst(r),
              Slack(r, b, ts, i), r.bitrate);
  }

  lemma AllowancePositive(r: Rate, b: Bucket, ts: seq<Tick>, i: nat)
    requires r.bitrate > 0 && i < |ts| && ts[i].jfs <= ts[i].sendTime
    ensures 0 <= Allowance(r, b, ts, i, i)
  {
    Scaled(0, ts[i].sendTime - ts[i].jfs + 1 + Slack(r, b, ts, i), r.bitrate);
  }

  /**
   * The rate bound: whatever the resets in between, packets `i` to `j` carry no
   * more bits than the allowance, the burst and packet `j` itself.
   */
  lemma RateBound(r: Rate, b: Bucket, ts: seq<Tick>, i: nat, j: nat)
    requires r.bitrate >= 3 && Valid(r, b, ts) && i <= j < |ts|
    ensures Bits(ts, i, j + 1) * USEC <= Allowance(r, b, ts, i, j) + (r.burstBits + ts[j].bits) * USEC
  {
    if i == j {
      assert ts[i].jfs <= ts[i].sendTime by { assert ValidTick(r, b, ts, i); }
      AllowancePositive(r, b, ts, i);
    } else {
      WindowBound(r, b, ts, i, j);
    }
  }

  /** The branch that caps the delay and drops the debt is never taken. */
  lemma CapUnreachable(r: Rate, b: Bucket, ts: seq<Tick>, k: nat)
    requires r.bitrate >= 3 && Valid(r, b, ts) && k < |ts|
    ensures BucketAt(r, b, ts, k).target <= ts[k].jfs + MaxDelay(r)
  {
    StartFits(r, b, ts);
    RunPaced(r, b, ts, k);
    StepPaced(r, b, ts, k);
  }

  // ---------------------------------------------------------------- growing runs

  /** The bucket before iteration `k` and the bits up to it depend on the iterations before `k` only. */
  lemma {:induction false} Prefix(r: Rate, b: Bucket, ts: seq<Tick>, more: seq<Tick>, k: nat)
    requires r.bitrate > 0 && k <= |ts|
    ensures BucketAt(r, b, ts + more, k) == BucketAt(r, b, ts, k)
    ensures Bits(ts + more, 0, k) == Bits(ts, 0, k)
  {
    if k > 0 {
      Prefix(r, b, ts, more, k - 1);
    }
  }

  /** What makes `t` a valid next iteration when the bucket is `c` and the clock read `now` last. */
  predicate Next(r: Rate, c: Bucket, now: u64, t: Tick)
    requires r.bitrate > 0
  {
    && MaxBurst(r) <= t.jfs < 0x8000_0000_0000_0000 && t.bits <= MAX_BITS && t.bits % 8 == 0 && now <= t.jfs
    && var (e, sleep) := Throttle(r, c, t.jfs);
       t.jfs + sleep <= t.sendTime && (e.sent + t.bits) * USEC < 0x1_0000_0000_0000_0000
  }

  lemma Extend(r: Rate, b: Bucket, ts: seq<Tick>, t: Tick)
    requires Valid(r, b, ts)
    requires Next(r, BucketAt(r, b, ts, |ts|), if ts == [] then b.target else ts[|ts|-1].sendTime, t)
    ensures Valid(r, b, ts + [t])
    ensures BucketAt(r, b, ts + [t], |ts| + 1) == PaceStep(r, BucketAt(r, b, ts, |ts|), t)
    ensures Bits(ts + [t], 0, |ts|) == Bits(ts, 0, |ts|)
    ensures Bits(ts + [t], 0, |ts| + 1) == Bits(ts, 0, |ts|) + t.bits
  {
    var us := ts + [t];
    forall k | 0 <= k < |us| ensures ValidTick(r, b, us, k) {
      Prefix(r, b, ts, [t], k);
      assert k < |ts| ==> ValidTick(r, b, ts, k);
    }
    Prefix(r, b, ts, [t], |ts|);
  }

  // ---------------------------------------------------------------- the hypotheses are needed

  lemma PlusOneSteps()
    ensures var r := Rate(3, 0);
      && MaxDelay(r) == 3413333334 && MaxBurst(r) == 0 && MAX_BITS * USEC / r.bitrate == 3413333333
      && Throttle(r, Bucket(0, 0, 0), 0) == (Bucket(0, 0, 0), 0)
      && Charge(r, Bucket(0, 0, 0), 8) == Bucket(0, 2666666, 8)
      && Throttle(r, Bucket(0, 2666666, 8), 0) == (Bucket(0, 2666666, 8), 2666666)
      && Charge(r, Bucket(0, 2666666, 8), MAX_BITS) == Bucket(0, 3416000000, 10248)
      && Throttle(r, Bucket(0, 3416000000, 10248), 2666666) == (Bucket(0, 3416000000, 10248), 3413333334)
  {
  }

  /** Without the "+ 1" the cap would fire: a run that reaches max_delay exactly. */
  lemma PlusOneNeeded()
    ensures
      var r, b := Rate(3, 0), Bucket(0, 0, 0);
      var ts := [Tick(0, 0, 8), Tick(0, 2666666, MAX_BITS), Tick(2666666, 3416000000, 8)];
      Valid(r, b, ts) && BucketAt(r, b, ts, 2).target - ts[2].jfs == MAX_BITS * USEC / r.bitrate + 1
  {
    PlusOneSteps();
    var r, b := Rate(3, 0), Bucket(0, 0, 0);
    var ts := [Tick(0, 0, 8), Tick(0, 2666666, MAX_BITS), Tick(2666666, 3416000000, 8)];
    assert BucketAt(r, b, ts, 0) == b;
    assert BucketAt(r, b, ts, 1) == Bucket(0, 2666666, 8);
    assert BucketAt(r, b, ts, 2) == Bucket(0, 3416000000, 10248);
    assert ValidTick(r, b, ts, 0) && ValidTick(r, b, ts, 1) && ValidTick(r, b, ts, 2);
  }

  /** The bound of `RateBound` for one window. */
  predicate WithinBound(r: Rate, b: Bucket, ts: seq<Tick>, i: nat, j: nat)
    requires r.bitrate > 0 && i <= j < |ts|
  {
    Bits(ts, i, j + 1) * USEC <= Allowance(r, b, ts, i, j) + (r.burstBits + ts[j].bits) * USEC
  }

  /** A bucket that starts at the clock reading max_burst. */
  function StartAtBurst(r: Rate): Bucket
    requires r.bitrate > 0
  {
    BurstFits(r);
    Bucket(MaxBurst(r), MaxBurst(r), 0)
  }

  lemma BurstFits(r: Rate)
    requires r.bitrate > 0
    ensures MaxBurst(r) < 0x10_0000_0000_0000
  {
    FloorSmall(r.burstBits * USEC, r.bitrate);
  }

  lemma SentGrows(r: Rate, c: Bucket, t: Tick)
    requires r.bitrate > 0
    ensures Throttle(r, c, t.jfs).0.sent <= c.sent
    ensures PaceStep(r, c, t).sent <= c.sent + t.bits
  {
    var e := Throttle(r, c, t.jfs).0;
    W64AtMost(e.sent + t.bits);
  }

  lemma W64AtMost(x: nat)
    ensures W64(x) <= x
  {
  }

  /** Full packets, each sent as soon as its sleep ends: a 32-bit argument lets no sleep take 2^32 us. */
  predicate Hasty(r: Rate, b: Bucket, ts: seq<Tick>, n: nat)
    requires r.bitrate > 0
  {
    && |ts| == n && Valid(r, b, ts) && BucketAt(r, b, ts, n).sent <= MAX_BITS * n && Bits(ts, 0, n) == MAX_BITS * n
    && (n > 0 ==>
          && ts[0].jfs == b.target && ts[n-1].bits == MAX_BITS
          && b.target <= ts[n-1].sendTime <= b.target + n * 0x1_0000_0000)
  }

  /** The time when the next packet may be looked at. */
  function Now(b: Bucket, ts: seq<Tick>): u64 { if ts == [] then b.target else ts[|ts|-1].sendTime }

  lemma HastyTick(r: Rate, c: Bucket, now: u64, n: nat, e: Bucket, sleep: u32)
    requires r.bitrate > 0 && MaxBurst(r) <= now < 0x100_0000_0000_0000 && n < 0x80_0000
    requires Throttle(r, c, now) == (e, sleep) && e.sent <= MAX_BITS * n
    ensures Next(r, c, now, Tick(now, now + sleep, MAX_BITS))
  {
    HastyFits(e.sent, n);
  }

  lemma HastyFits(sent: nat, n: nat)
    requires sent <= MAX_BITS * n && n < 0x80_0000
    ensures (sent + MAX_BITS) * USEC < 0x1_0000_0000_0000_0000
  {
  }

  lemma HastyNext(r: Rate, b: Bucket, ts: seq<Tick>, n: nat) returns (us: seq<Tick>)
    requires r.bitrate > 0 && Hasty(r, b, ts, n) && n < 0x80_0000
    requires MaxBurst(r) <= b.target < 0x10_0000_0000_0000
    ensures Hasty(r, b, us, n + 1)
  {
    var c, now := BucketAt(r, b, ts, n), Now(b, ts);
    var p := Throttle(r, c, now);
    var t := Tick(now, now + p.1, MAX_BITS);
    SentGrows(r, c, t);
    HastyTick(r, c, now, n, p.0, p.1);
    Extend(r, b, ts, t);
    us := ts + [t];
  }

  lemma {:induction false} HastyRun(r: Rate, b: Bucket, n: nat) returns (ts: seq<Tick>)
    requires r.bitrate > 0 && b.start == b.target && b.sent == 0 && MaxBurst(r) <= b.target < 0x10_0000_0000_0000
    requires n <= 0x80_0000
    ensures Hasty(r, b, ts, n)
  {
    ts := [];
    if n > 0 {
      ts := HastyRun(r, b, n - 1);
      ts := HastyNext(r, b, ts, n - 1);
    }
  }

  lemma HastyExceeds(n: nat, q: nat, burst: nat, span: nat, bitrate: nat)
    requires 1 <= bitrate <= 2 && q == burst / 1000 && n == q + 6 && span <= (n + 1) * 0x1_0000_0000
    ensures MAX_BITS * n * USEC > (span + 1) * bitrate + burst * USEC
  {
    assert (span + 1) * bitrate <= 2 * (span + 1);
  }

  /**
   * Bitrates below 3 are too small, whatever the burst: the delay does not fit
   * the 32-bit argument of the sleep, and packets leave too early.
   */
  lemma TinyBitrateBreaksBound(r: Rate) returns (ts: seq<Tick>, j: nat)
    requires 1 <= r.bitrate <= 2
    ensures Valid(r, StartAtBurst(r), ts) && j < |ts| && !WithinBound(r, StartAtBurst(r), ts, 0, j)
  {
    j := r.burstBits / 1000 + 6;
    var b := StartAtBurst(r);
    BurstFits(r);
    ts := HastyRun(r, b, j + 1);
    assert Slack(r, b, ts, 0) == 0;
    HastyExceeds(j, r.burstBits / 1000, r.burstBits, ts[j].sendTime - ts[0].jfs, r.bitrate);
  }

  /** The rate bound holds in all windows of all valid runs if and only if the bitrate is at least 3. */
  lemma RateBoundIff(r: Rate)
    requires r.bitrate > 0
    ensures (forall b: Bucket, ts: seq<Tick>, i: nat, j: nat ::
               Valid(r, b, ts) && i <= j < |ts| ==> WithinBound(r, b, ts, i, j))
            <==> r.bitrate >= 3
  {
    if r.bitrate >= 3 {
      forall b: Bucket, ts: seq<Tick>, i: nat, j: nat | Valid(r, b, ts) && i <= j < |ts|
        ensures WithinBound(r, b, ts, i, j)
      {
        RateBound(r, b, ts, i, j);
      }
    } else {
      var ts, j := TinyBitrateBreaksBound(r);
    }
  }
}
