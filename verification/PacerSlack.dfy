/**
 * The start of the transmit pacer.  `vtx_thread` reads the clock twice, so that
 * its first packets may find more credit than a burst.  This module determines
 * exactly for which first clock readings every run meets the rate bound without
 * the slack that `Pacer.RateBound` grants.
 */
module PacerSlack {
  import opened Words
  import opened Division
  import opened Pacer

  const TWO62 := 0x4000_0000_0000_0000

  /** The window from the first packet to packet `j` meets the rate bound without slack. */
  predicate Within(r: Rate, ts: seq<Tick>, j: nat)
    requires j < |ts|
  {
    Bits(ts, 0, j + 1) * USEC <= (ts[j].sendTime - ts[0].jfs + 1) * r.bitrate + (r.burstBits + ts[j].bits) * USEC
  }

  predicate SlackFree(r: Rate, ts: seq<Tick>) {
    forall j :: 0 <= j < |ts| ==> Within(r, ts, j)
  }

  /** What a number of octets leaves over when it is counted in whole microseconds. */
  function Residue(r: Rate, octets: nat): nat
    requires r.bitrate > 0
  {
    8 * octets * USEC % r.bitrate
  }

  function BurstResidue(r: Rate): nat
    requires r.bitrate > 0
  {
    r.burstBits * USEC % r.bitrate
  }

  /** No number of octets leaves more over than the burst does. */
  ghost predicate BurstCovers(r: Rate)
    requires r.bitrate > 0
  {
    forall octets: nat :: Residue(r, octets) <= BurstResidue(r)
  }

  // ---------------------------------------------------------------- where no slack is needed

  lemma EightsAdd(a: nat, b: nat)
    requires a % 8 == 0 && b % 8 == 0
    ensures (a + b) % 8 == 0
  {
  }

  lemma {:induction false} WholeOctets(r: Rate, b: Bucket, ts: seq<Tick>, j: nat)
    requires Valid(r, b, ts) && j <= |ts|
    ensures Bits(ts, 0, j) % 8 == 0
  {
    if j > 0 {
      WholeOctets(r, b, ts, j - 1);
      assert ts[j-1].bits % 8 == 0 by { assert ValidTick(r, b, ts, j - 1); }
      EightsAdd(Bits(ts, 0, j - 1), ts[j-1].bits);
    }
  }

  lemma RoundedDown(a: nat, q: int, r: nat, rest: nat)
    requires r > 0 && a < (q + 1) * r && a % r <= rest
    ensures a <= q * r + rest
  {
    Remainder(a, r);
    if q < a / r {
      Scaled(q + 1, a / r, r);
      assert false;
    }
  }

  /** A surplus of one microsecond does no harm if the burst leaves as much over as any packets do. */
  lemma CoveredWindow(r: Rate, b: Bucket, ts: seq<Tick>, j: nat)
    requires r.bitrate >= 3 && Valid(r, b, ts) && 0 < j < |ts|
    requires Surplus(r, b, ts[0].jfs) == 1 && BurstCovers(r)
    ensures Within(r, ts, j)
  {
    StartFits(r, b, ts);
    RunPaced(r, b, ts, j);
    StepPaced(r, b, ts, j);
    Accumulated(r, b, ts, 0, j);
    WholeOctets(r, b, ts, j);
    var bits, mb, span := Bits(ts, 0, j), MaxBurst(r), ts[j].sendTime - ts[0].jfs + 1;
    assert 8 * (bits / 8) == bits && Residue(r, bits / 8) <= BurstResidue(r);
    assert bits * USEC < (span + mb + 1) * r.bitrate by {
      Distribute(ts[0].jfs - mb - 1, span + mb + 1, r.bitrate);
    }
    RoundedDown(bits * USEC, span + mb, r.bitrate, BurstResidue(r));
    Distribute(span, mb, r.bitrate);
    Remainder(r.burstBits * USEC, r.bitrate);
  }

  lemma FirstWithin(r: Rate, b: Bucket, ts: seq<Tick>)
    requires Valid(r, b, ts) && ts != []
    ensures Within(r, ts, 0)
  {
    assert ValidTick(r, b, ts, 0);
    Scaled(0, ts[0].sendTime - ts[0].jfs + 1, r.bitrate);
  }

  /** Outside the gap, and with a harmless surplus, every run meets the bound from its first packet on. */
  lemma NoSlackNeeded(r: Rate, b: Bucket, ts: seq<Tick>)
    requires r.bitrate >= 3 && Valid(r, b, ts) && ts != []
    requires !InGap(r, b, ts[0].jfs) || (Surplus(r, b, ts[0].jfs) == 1 && BurstCovers(r))
    ensures SlackFree(r, ts)
  {
    forall j | 0 <= j < |ts| ensures Within(r, ts, j) {
      if j == 0 {
        FirstWithin(r, b, ts);
      } else if InGap(r, b, ts[0].jfs) {
        CoveredWindow(r, b, ts, j);
      } else {
        RateBound(r, b, ts, 0, j);
      }
    }
  }

  // ---------------------------------------------------------------- runs that need it

  /** Once the target is within a burst of the start of the run, an eager sender causes no reset. */
  lemma NoReset(r: Rate, c: Bucket, first: u64, jfs: u64)
    requires r.bitrate >= 3 && WithinDelay(r, c, jfs)
    requires MaxBurst(r) <= first <= jfs && first - MaxBurst(r) <= c.target
    requires jfs == first || jfs <= c.target
    ensures Throttle(r, c, jfs) == (c, if jfs < c.target then c.target - jfs else 0)
  {
    DelayFits(r);
    W64Exact(jfs - MaxBurst(r));
  }

  /** The readings of a thread that starts inside the gap, with room for a long run. */
  predicate Starts(r: Rate, b: Bucket, first: u64) {
    && r.bitrate >= 3 && b.sent == 0 && b.start <= b.target <= first < TWO62
    && MaxBurst(r) <= first && InGap(r, b, first)
  }

  /** A packet of full size, and then packets of one octet, each as early as the pacer allows. */
  predicate Eager(r: Rate, b: Bucket, first: u64, base: nat, ts: seq<Tick>, m: nat)
    requires r.bitrate > 0
  {
    && |ts| == m + 1 && Valid(r, b, ts) && ts[0].jfs == first && Bits(ts, 0, m + 1) == MAX_BITS + 8 * m
    && var c := BucketAt(r, b, ts, m + 1);
       && OnTarget(r, c) && Virtual(r, c) == base + 8 * m * USEC && c.start <= first && c.sent <= MAX_BITS + 8 * m
       && first - MaxBurst(r) <= c.target
       && first <= ts[m].sendTime && (ts[m].sendTime == first || ts[m].sendTime <= c.target)
  }

  lemma TargetFits(r: Rate, c: Bucket)
    requires r.bitrate >= 3 && OnTarget(r, c) && c.start < TWO62 && c.sent < 0x80_0000_0000
    ensures c.target < 0x8000_0000_0000_0000
  {
    Scaled(3, r.bitrate, TWO62);
    assert TWO62 * r.bitrate == r.bitrate * TWO62;
    FloorAtMost(c.sent * USEC, r.bitrate, TWO62 - 1);
    FloorShift(c.start, c.sent * USEC, r.bitrate);
  }

  /** The charge of one more octet. */
  lemma OneOctet(r: Rate, c: Bucket)
    requires r.bitrate >= 3 && OnTarget(r, c) && c.start < TWO62 && c.sent < 0x80_0000_0000 - 8
    ensures var d := Charge(r, c, 8);
      && OnTarget(r, d) && d.start == c.start && d.sent == c.sent + 8
      && Virtual(r, d) == Virtual(r, c) + 8 * USEC && c.target <= d.target
  {
    ChargeNoWrap(r, c, 8);
    ChargeExact(r, c, 8);
    FloorMonotone(Virtual(r, c), Virtual(r, Charge(r, c, 8)), r.bitrate);
  }

  lemma EagerNext(r: Rate, b: Bucket, first: u64, base: nat, ts: seq<Tick>, m: nat) returns (us: seq<Tick>)
    requires Starts(r, b, first) && Eager(r, b, first, base, ts, m) && m < 0x8_0000_0000
    ensures Eager(r, b, first, base, us, m + 1)
    ensures us[m+1].sendTime == var t := (base + 8 * m * USEC) / r.bitrate; if t < first then first else t
    ensures us[m+1].bits == 8 && Bits(us, 0, m + 1) == MAX_BITS + 8 * m
  {
    var c, jfs := BucketAt(r, b, ts, m + 1), ts[m].sendTime;
    var t := Tick(jfs, if jfs < c.target then c.target else jfs, 8);
    RunPaced(r, b, ts, m + 1);
    NoReset(r, c, first, jfs);
    TargetFits(r, c);
    assert Next(r, c, jfs, t);
    us := ts + [t];
    Extend(r, b, ts, t);
    OneOctet(r, c);
  }

  /** The target after the packet of full size. */
  function FirstTarget(r: Rate, b: Bucket): nat
    requires r.bitrate > 0
  {
    b.start + MAX_BITS * USEC / r.bitrate
  }

  /** The virtual send time that the packets of one octet start from: the second iteration may reset it. */
  function Base(r: Rate, b: Bucket, first: u64): nat
    requires Starts(r, b, first)
  {
    if first - MaxBurst(r) <= FirstTarget(r, b) then b.start * r.bitrate + MAX_BITS * USEC
    else (first - MaxBurst(r)) * r.bitrate
  }

  lemma FirstSent(r: Rate, b: Bucket, first: u64) returns (ts: seq<Tick>)
    requires Starts(r, b, first)
    ensures |ts| == 1 && Valid(r, b, ts) && ts[0].jfs == ts[0].sendTime == first && Bits(ts, 0, 1) == MAX_BITS
    ensures var c := BucketAt(r, b, ts, 1);
      OnTarget(r, c) && c.start == b.start && c.target == FirstTarget(r, b) && c.sent == MAX_BITS
  {
    W64Exact(first - MaxBurst(r));
    assert Throttle(r, b, first) == (b, 0);
    var t := Tick(first, first, MAX_BITS);
    Extend(r, b, [], t);
    ts := [] + [t];
    ChargeNoWrap(r, b, MAX_BITS);
    ChargeExact(r, b, MAX_BITS);
  }

  lemma FreshCharge(r: Rate, e: Bucket)
    requires r.bitrate >= 3 && e.sent == 0 && e.start < TWO62
    ensures var d := Charge(r, e, 8);
      && OnTarget(r, d) && d.start == e.start && d.sent == 8 && d.start <= d.target
      && Virtual(r, d) == e.start * r.bitrate + 8 * USEC
  {
    ChargeNoWrap(r, e, 8);
    ChargeExact(r, e, 8);
    assert 0 <= 8 * USEC / r.bitrate by { FloorAtLeast(8 * USEC, r.bitrate, 0); }
  }

  lemma Reset(r: Rate, c: Bucket, first: u64)
    requires r.bitrate >= 3 && c.target + MaxBurst(r) < first < TWO62
    ensures var e := Throttle(r, c, first);
      e.0.start == first - MaxBurst(r) && e.0.sent == 0 && e.1 == 0
    ensures var d := PaceStep(r, c, Tick(first, first, 8));
      && OnTarget(r, d) && d.start == first - MaxBurst(r) && d.sent == 8 && d.start <= d.target
      && Virtual(r, d) == (first - MaxBurst(r)) * r.bitrate + 8 * USEC
  {
    W64Exact(first - MaxBurst(r));
    FreshCharge(r, Throttle(r, c, first).0);
  }

  lemma SecondResets(r: Rate, b: Bucket, first: u64, ts: seq<Tick>) returns (us: seq<Tick>)
    requires Starts(r, b, first) && FirstTarget(r, b) < first - MaxBurst(r)
    requires |ts| == 1 && Valid(r, b, ts) && ts[0].jfs == ts[0].sendTime == first && Bits(ts, 0, 1) == MAX_BITS
    requires BucketAt(r, b, ts, 1).target == FirstTarget(r, b)
    ensures Eager(r, b, first, Base(r, b, first), us, 1)
  {
    var c, t := BucketAt(r, b, ts, 1), Tick(first, first, 8);
    Reset(r, c, first);
    assert Next(r, c, first, t);
    us := ts + [t];
    Extend(r, b, ts, t);
  }

  lemma {:induction false} EagerRun(r: Rate, b: Bucket, first: u64, m: nat) returns (ts: seq<Tick>)
    requires Starts(r, b, first) && 1 <= m <= 0x8_0000_0000
    ensures Eager(r, b, first, Base(r, b, first), ts, m)
  {
    if m > 1 {
      var us := EagerRun(r, b, first, m - 1);
      ts := EagerNext(r, b, first, Base(r, b, first), us, m - 1);
    } else {
      var us := FirstSent(r, b, first);
      if first - MaxBurst(r) <= FirstTarget(r, b) {
        ts := EagerNext(r, b, first, Base(r, b, first), us, 0);
      } else {
        ts := SecondResets(r, b, first, us);
      }
    }
  }

  /** The credit, in microbits, that the packet of full size did not have to pay for. */
  function Unpaid(r: Rate, b: Bucket, first: u64): int
    requires Starts(r, b, first)
  {
    (first - MaxBurst(r)) * r.bitrate + MAX_BITS * USEC - Base(r, b, first)
  }

  lemma UnpaidCases(r: Rate, b: Bucket, first: u64)
    requires Starts(r, b, first)
    ensures (first - MaxBurst(r)) * r.bitrate <= Base(r, b, first)
    ensures Surplus(r, b, first) >= 2 ==> Unpaid(r, b, first) >= 2 * r.bitrate
    ensures Surplus(r, b, first) == 1 ==>
      Unpaid(r, b, first) == r.bitrate && Base(r, b, first) == b.start * r.bitrate + MAX_BITS * USEC
  {
    var surplus, units := Surplus(r, b, first), MAX_BITS * USEC / r.bitrate;
    Distribute(b.start, surplus, r.bitrate);
    assert units >= 2 by { FloorAtLeast(MAX_BITS * USEC, r.bitrate, 2); }
    if surplus <= units {
      Scaled(surplus, units, r.bitrate);
      Floor(MAX_BITS * USEC, r.bitrate);
      if surplus >= 2 {
        Scaled(2, surplus, r.bitrate);
      }
    }
  }

  /** The surplus of a window that ends when its packet is due, in exact arithmetic. */
  lemma Exceeds(v: nat, base: int, unpaid: int, full: int, small: int, first: int, mb: int, burst: nat, r: nat)
    requires r > 0 && v == base + small && base + unpaid == (first - mb) * r + full
    requires burst / r == mb && v % r + unpaid > r + burst % r
    ensures full + small > (v / r - first + 1) * r + burst
  {
    Remainder(v, r);
    Remainder(burst, r);
    Distribute(v / r - first + 1, first - mb, r);
    Distribute(v / r - mb, 1, r);
    Distribute(v / r - mb, mb, r);
  }

  lemma BurstUsedUp(r: Rate, b: Bucket, first: u64, m: nat)
    requires Starts(r, b, first) && r.burstBits <= 8 * m
    ensures first <= (Base(r, b, first) + 8 * m * USEC) / r.bitrate
  {
    UnpaidCases(r, b, first);
    BurstWorth(r);
    Distribute(first - MaxBurst(r), MaxBurst(r), r.bitrate);
    FloorAtLeast(Base(r, b, first) + 8 * m * USEC, r.bitrate, first);
  }

  lemma LastExceeds(r: Rate, b: Bucket, first: u64, ts: seq<Tick>, m: nat)
    requires Starts(r, b, first) && |ts| == m + 2 && ts[0].jfs == first && ts[m+1].bits == 8
    requires Bits(ts, 0, m + 1) == MAX_BITS + 8 * m
    requires ts[m+1].sendTime == (Base(r, b, first) + 8 * m * USEC) / r.bitrate
    requires (Base(r, b, first) + 8 * m * USEC) % r.bitrate + Unpaid(r, b, first) > r.bitrate + BurstResidue(r)
    ensures !Within(r, ts, m + 1)
  {
    var base := Base(r, b, first);
    Exceeds(base + 8 * m * USEC, base, Unpaid(r, b, first), MAX_BITS * USEC, 8 * m * USEC,
            first, MaxBurst(r), r.burstBits * USEC, r.bitrate);
  }

  /** An eager run breaks the bound once its burst is used up, if enough was not paid for. */
  lemma EagerBreaks(r: Rate, b: Bucket, first: u64, m: nat) returns (ts: seq<Tick>)
    requires Starts(r, b, first) && 1 <= m < 0x8_0000_0000 && r.burstBits <= 8 * m
    requires (Base(r, b, first) + 8 * m * USEC) % r.bitrate + Unpaid(r, b, first) > r.bitrate + BurstResidue(r)
    ensures Valid(r, b, ts) && ts != [] && ts[0].jfs == first && !SlackFree(r, ts)
  {
    var us := EagerRun(r, b, first, m);
    ts := EagerNext(r, b, first, Base(r, b, first), us, m);
    BurstUsedUp(r, b, first, m);
    LastExceeds(r, b, first, ts, m);
  }

  /** Residues repeat with the bitrate. */
  lemma ResidueRepeats(r: Rate, octets: nat, k: nat)
    requires r.bitrate > 0
    ensures Residue(r, octets + k * r.bitrate) == Residue(r, octets)
  {
    assert 8 * (octets + k * r.bitrate) * USEC == 8 * octets * USEC + 8 * k * USEC * r.bitrate;
    ModShift(8 * octets * USEC, 8 * k * USEC, r.bitrate);
  }

  /** So every residue is left by a number of octets that uses up the burst and is not too large. */
  lemma LargeRepresentative(r: Rate, octets: nat) returns (large: nat)
    requires r.bitrate > 0
    ensures Residue(r, large) == Residue(r, octets)
    ensures r.burstBits + PKT_SIZE < large < 0x8_0000_0000
  {
    var least, q := octets % r.bitrate, octets / r.bitrate;
    var k := (r.burstBits + PKT_SIZE) / r.bitrate + 1;
    Remainder(octets, r.bitrate);
    ResidueRepeats(r, least, q);
    ResidueRepeats(r, least, k);
    Floor(r.burstBits + PKT_SIZE, r.bitrate);
    Distribute(k - 1, 1, r.bitrate);
    large := least + k * r.bitrate;
  }

  lemma LargeSurplusBreaks(r: Rate, b: Bucket, first: u64) returns (ts: seq<Tick>)
    requires Starts(r, b, first) && Surplus(r, b, first) >= 2
    ensures Valid(r, b, ts) && ts != [] && ts[0].jfs == first && !SlackFree(r, ts)
  {
    UnpaidCases(r, b, first);
    Remainder(r.burstBits * USEC, r.bitrate);
    var m: nat := r.burstBits + 1;
    Remainder(Base(r, b, first) + 8 * m * USEC, r.bitrate);
    ts := EagerBreaks(r, b, first, m);
  }

  lemma SmallSurplusBreaks(r: Rate, b: Bucket, first: u64, octets: nat) returns (ts: seq<Tick>)
    requires Starts(r, b, first) && Surplus(r, b, first) == 1 && Residue(r, octets) > BurstResidue(r)
    ensures Valid(r, b, ts) && ts != [] && ts[0].jfs == first && !SlackFree(r, ts)
  {
    UnpaidCases(r, b, first);
    var large := LargeRepresentative(r, octets);
    var m := large - PKT_SIZE;
    assert Base(r, b, first) + 8 * m * USEC == 8 * large * USEC + b.start * r.bitrate;
    ModShift(8 * large * USEC, b.start, r.bitrate);
    ts := EagerBreaks(r, b, first, m);
  }

  /** Every run of the thread whose first clock reading is `first` meets the bound without slack. */
  ghost predicate AllSlackFree(r: Rate, b: Bucket, first: u64) {
    forall ts: seq<Tick> :: Valid(r, b, ts) && ts != [] && ts[0].jfs == first ==> SlackFree(r, ts)
  }

  /**
   * Exactly when the pacer needs slack: every run meets the rate bound from its
   * first packet on if and only if the first clock reading is outside the gap,
   * or the surplus is a single microsecond and no number of octets leaves more
   * over, in whole microseconds, than the burst does.
   */
  lemma SlackFreeIff(r: Rate, b: Bucket, first: u64)
    requires r.bitrate >= 3 && b.sent == 0 && b.start <= b.target <= first < TWO62 && MaxBurst(r) <= first
    ensures AllSlackFree(r, b, first) <==>
            !InGap(r, b, first) || (Surplus(r, b, first) == 1 && BurstCovers(r))
  {
    if !InGap(r, b, first) || (Surplus(r, b, first) == 1 && BurstCovers(r)) {
      forall ts: seq<Tick> | Valid(r, b, ts) && ts != [] && ts[0].jfs == first ensures SlackFree(r, ts) {
        NoSlackNeeded(r, b, ts);
      }
    } else if Surplus(r, b, first) == 1 {
      var octets: nat :| Residue(r, octets) > BurstResidue(r);
      var ts := SmallSurplusBreaks(r, b, first, octets);
    } else {
      var ts := LargeSurplusBreaks(r, b, first);
    }
  }
}
