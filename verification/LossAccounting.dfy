/**
 * Loss accounting in the receiver (src/rtprecv.c): what `lostcalc` reports for
 * the deliveries of a jitter buffer, and how it compares with the buffer's own count.
 */
module LossAccounting {
  import opened Words
  import opened JbufModel
  import opened JbufRun
  import opened JbufOrder

  /** The value of `pseq` that stands for "no packet yet". */
  const NO_SEQ: u32 := 0xFFFF_FFFF

  /** Steps from here on are taken for a restart of the sender, and those from BACKWARD on for reordering. */
  const JUMP := 3000
  const BACKWARD := 0xFF9C

  /** `lostcalc`: the new `pseq` and the result. */
  function LostCalc(pseq: u32, seqno: u16): (u32, int) {
    var delta := W16(seqno - pseq);
    if pseq == NO_SEQ then (seqno, 0)
    else if delta == 0 then (pseq, -1)
    else if delta < JUMP then (seqno, delta - 1)
    else if delta < BACKWARD then (seqno, 0)
    else (pseq, -2)
  }

  /** The first packet of a stream, and a packet of a new source, set `pseq` just below themselves. */
  function FirstPseq(seqno: u16): u32 { W32(seqno - 1) }
  function ResyncPseq(seqno: u16): u32 { W16(seqno - 1) }

  /** For a step of up to half a cycle, `lostcalc` follows and counts what was passed over, up to a jump. */
  lemma ForwardStep(u: int, v: int)
    requires u < v <= u + HALF
    ensures LostCalc(W16(u), W16(v)) == (W16(v), if v - u < JUMP then v - u - 1 else 0)
  {
    StepResidue(u, v);
  }

  lemma StepResidue(u: int, v: int)
    requires u < v <= u + HALF
    ensures W16(W16(v) - W16(u)) == v - u
  {
  }

  /** The jitter buffer's count for the same step. */
  lemma BufferCount(u: int, v: int)
    requires u < v <= u + HALF
    ensures LostBefore(W16(u), W16(v)) == if W16(u) == 0 || v - u == HALF then 0 else v - u - 1
  {
    StepResidue(u, v);
  }

  /**
   * The two counts agree exactly when the step is short and the buffer's last
   * number does not read 0, or when both count nothing.
   */
  lemma CountsAgreeIff(u: int, v: int)
    requires u < v <= u + HALF
    ensures LostCalc(W16(u), W16(v)).1 == LostBefore(W16(u), W16(v)) <==>
      || (v - u < JUMP && W16(u) != 0)
      || v - u == 1
      || (v - u >= JUMP && (W16(u) == 0 || v - u == HALF))
  {
    ForwardStep(u, v);
    BufferCount(u, v);
  }

  lemma W16Small(x: int)
    requires 0 <= x < 0x1_0000
    ensures W16(x) == x
  {
  }

  /**
   * After set-up by a packet, the packet `k` numbers later counts `k` as lost;
   * but after first set-up by number 0, `pseq` reads "no packet yet" and
   * nothing is counted.
   */
  lemma SetupCounts(u: int, k: nat)
    requires k + 1 < JUMP
    ensures LostCalc(ResyncPseq(W16(u)), W16(u + k)).1 == k
    ensures LostCalc(FirstPseq(W16(u)), W16(u + k)).1 == if W16(u) == 0 then 0 else k
  {
    W16Absorb(u, -1);
    ForwardStep(u - 1, u + k);
    if W16(u) == 0 {
      W32Negative(-1);
    } else {
      W32Residue(W16(u) - 1, W16(u) - 1, 0);
      W16Small(W16(u) - 1);
    }
  }

  // ---------------------------------------------------------------- whole deliveries

  /** `pseq` after the deliveries `us`, in step with the first one. */
  function PseqAfter(us: seq<int>): u32
    requires us != []
    decreases |us|
  {
    if |us| == 1 then W16(us[0]) else LostCalc(PseqAfter(Front(us)), W16(Last(us))).0
  }

  /** All losses that the receiver reports after the first delivery. */
  function LostTotal(us: seq<int>): int
    requires us != []
    decreases |us|
  {
    if |us| == 1 then 0 else LostTotal(Front(us)) + LostCalc(PseqAfter(Front(us)), W16(Last(us))).1
  }

  predicate NoJump(us: seq<int>) {
    forall i :: 0 < i < |us| ==> us[i] - us[i-1] < JUMP
  }

  lemma NoJumpSnoc(us: seq<int>)
    requires |us| > 1
    ensures NoJump(us) <==> NoJump(Front(us)) && Last(us) - Last(Front(us)) < JUMP
  {
  }

  /**
   * Along increasing deliveries the receiver stays in step; what it reports
   * lost plus what it got never exceeds the distance covered, and equals it if
   * and only if no step was a jump.
   */
  lemma {:induction false} LossBalance(us: seq<int>)
    requires us != [] && Climbing(us)
    ensures PseqAfter(us) == W16(Last(us))
    ensures LostTotal(us) + |us| - 1 <= Last(us) - us[0]
    ensures LostTotal(us) + |us| - 1 == Last(us) - us[0] <==> NoJump(us)
    decreases |us|
  {
    if |us| > 1 {
      var f := Front(us);
      LossBalance(f);
      ForwardStep(Last(f), Last(us));
      NoJumpSnoc(us);
    }
  }

  /** What is counted for a step from `u` to `v`. */
  function Skipped(u: int, v: int): int { if v - u < JUMP then v - u - 1 else 0 }

  /** What one delivery more adds. */
  lemma LostSnoc(us: seq<int>, v: int)
    requires us != [] && Climbing(us) && Last(us) < v <= Last(us) + HALF
    ensures LostTotal(us + [v]) == LostTotal(us) + Skipped(Last(us), v)
  {
    assert Front(us + [v]) == us;
    LossBalance(us);
    ForwardStep(Last(us), v);
  }

  /** Loss accounting for every fair run of the jitter buffer, between two flushes. */
  lemma RunLossBalance(cfg: Config, base: int, es: seq<Event>)
    requires cfg.maxsz >= 1 && FairRun(Init(cfg), base, es) && TrailOf(Init(cfg), base, es).out != []
    ensures var us := TrailOf(Init(cfg), base, es).out;
      && PseqAfter(us) == Exec(Init(cfg), Ops(es)).seqGet
      && LostTotal(us) + |us| - 1 <= Last(us) - us[0]
      && (LostTotal(us) + |us| - 1 == Last(us) - us[0] <==> NoJump(us))
  {
    RunOrdered(cfg, base, es);
    LossBalance(TrailOf(Init(cfg), base, es).out);
  }
}
