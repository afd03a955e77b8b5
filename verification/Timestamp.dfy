/**
 * Extension of 32-bit RTP timestamps (src/timestamp.c) and its two users: the
 * video receiver, which ignores timestamps that wrap backwards, and the audio
 * receiver, which stores them.
 */
module Timestamp {
  import opened Words

  const CYCLE := 0x1_0000_0000
  const HALF_CYCLE := 0x8000_0000

  /** `timestamp_wrap`: 1 for a forward wrap, -1 for a backward one, 0 for none. */
  function Wrap(tsNew: u32, tsOld: u32): (r: int)
    ensures -1 <= r <= 1
  {
    if tsNew < tsOld then
      (if S32(tsNew - tsOld) > 0 then 1 else 0)
    else if S32(tsOld - tsNew) > 0 then -1
    else 0
  }

  /** For true timestamps less than half a cycle apart, the result is the difference of their cycles. */
  lemma WrapIsCycleStep(x: int, y: int)
    requires -HALF_CYCLE < x - y < HALF_CYCLE
    ensures Wrap(W32(x), W32(y)) == x / CYCLE - y / CYCLE
  {
    var j, k := x / CYCLE, y / CYCLE;
    S32Residue(W32(x) - W32(y), x - y, k - j);
    S32Residue(W32(y) - W32(x), y - x, j - k);
  }

  /**
   * The classification is right up to a distance of half a cycle, except for a
   * step of exactly half a cycle that leaves the cycle, which is taken for one in
   * the other direction.
   */
  lemma WrapExactIff(x: int, y: int)
    requires -HALF_CYCLE <= x - y <= HALF_CYCLE
    ensures Wrap(W32(x), W32(y)) == x / CYCLE - y / CYCLE
       <==> -HALF_CYCLE < x - y < HALF_CYCLE || x / CYCLE == y / CYCLE
  {
    if -HALF_CYCLE < x - y < HALF_CYCLE {
      WrapIsCycleStep(x, y);
    }
  }

  /** `timestamp_calc_extended`. */
  function Extended(numWraps: u32, ts: u32): u64 { W64(numWraps * CYCLE + ts) }

  /** The receiver's timestamp structure as a value. */
  datatype Stamp = Stamp(first: u32, last: u32, isSet: bool, numWraps: u32)

  const UNSET := Stamp(0, 0, false, 0)

  function Set(s: Stamp, ts: u32): Stamp { s.(first := ts, last := ts, isSet := true) }

  /** `update_rtp_timestamp` of the video receiver. */
  function VideoUpdate(s: Stamp, ts: u32): Stamp {
    if !s.isSet then Set(s, ts)
    else match Wrap(ts, s.last)
      case -1 => s
      case 1 => s.(numWraps := W32(s.numWraps + 1), last := ts)
      case _ => s.(last := ts)
  }

  /** The timestamp part of `aurecv_receive`. */
  function AudioUpdate(s: Stamp, ts: u32): Stamp {
    var s0 := if !s.isSet then Set(s, ts) else s;
    var wraps := if Wrap(ts, s0.last) == 1 then W32(s0.numWraps + 1) else s0.numWraps;
    s0.(numWraps := wraps, last := ts)
  }

  /** `timestamp_duration`. */
  function Duration(s: Stamp): u64 {
    if !s.isSet then 0 else W64(Extended(s.numWraps, s.last) - s.first)
  }

  // ---------------------------------------------------------------- tracking

  /** The structure stands for the true timestamp `t`, counted from the cycle of the first one. */
  predicate Tracks(s: Stamp, t: int) {
    s.isSet && 0 <= t < CYCLE * CYCLE && s.last == W32(t) && s.numWraps == t / CYCLE
  }

  lemma TracksExtended(s: Stamp, t: int)
    requires Tracks(s, t)
    ensures Extended(s.numWraps, s.last) == t
  {
    W64Exact(t);
  }

  /** The true timestamp leaves the cycle of the last one downwards. */
  predicate WrapsBack(t: int, last: int) { t / CYCLE < last / CYCLE }

  /** What the video receiver accepts: everything but backward wraps. */
  function Accepted(t: int, last: int): int { if WrapsBack(t, last) then last else t }

  /** The video receiver keeps track through every packet near the last accepted one. */
  lemma VideoTracks(s: Stamp, last: int, t: int)
    requires Tracks(s, last) && -HALF_CYCLE < t - last < HALF_CYCLE && t < CYCLE * CYCLE
    ensures Tracks(VideoUpdate(s, W32(t)), Accepted(t, last))
    ensures WrapsBack(t, last) <==> Wrap(W32(t), s.last) == -1
    ensures VideoUpdate(s, W32(t)).first == s.first
  {
    WrapIsCycleStep(t, last);
  }

  /** The audio receiver stays on track exactly as long as no timestamp wraps backwards. */
  lemma AudioTracksIff(s: Stamp, last: int, t: int)
    requires Tracks(s, last) && -HALF_CYCLE < t - last < HALF_CYCLE && t < CYCLE * CYCLE
    ensures Tracks(AudioUpdate(s, W32(t)), t) <==> !WrapsBack(t, last)
    ensures WrapsBack(t, last) ==> Tracks(AudioUpdate(s, W32(t)), t + CYCLE)
  {
    WrapIsCycleStep(t, last);
    assert (t + CYCLE) / CYCLE == t / CYCLE + 1;
  }

  // ---------------------------------------------------------------- runs

  /** The state of the video receiver after the true timestamps `ts`. */
  function VideoRun(ts: seq<int>): Stamp
    decreases |ts|
  {
    if ts == [] then UNSET else VideoUpdate(VideoRun(ts[..|ts|-1]), W32(ts[|ts|-1]))
  }

  /** The last accepted true timestamp. */
  function LastAccepted(ts: seq<int>): int
    requires ts != []
    decreases |ts|
  {
    if |ts| == 1 then ts[0] else Accepted(ts[|ts|-1], LastAccepted(ts[..|ts|-1]))
  }

  /** Each timestamp is within half a cycle of the last accepted one; times count from the first cycle. */
  predicate Near(ts: seq<int>)
    decreases |ts|
  {
    ts == [] || (|ts| == 1 && 0 <= ts[0] < CYCLE) ||
    (|ts| > 1 && Near(ts[..|ts|-1]) && ts[|ts|-1] < CYCLE * CYCLE &&
     -HALF_CYCLE < ts[|ts|-1] - LastAccepted(ts[..|ts|-1]) < HALF_CYCLE)
  }

  /**
   * In every run near enough, wraps and last timestamp together are the last
   * accepted true timestamp, and the duration is the true one if and only if
   * the stream has not gone back behind its first timestamp.
   */
  lemma {:induction false} VideoRunTracks(ts: seq<int>)
    requires ts != [] && Near(ts)
    ensures var s := VideoRun(ts);
      && Tracks(s, LastAccepted(ts)) && s.first == ts[0]
      && Extended(s.numWraps, s.last) == LastAccepted(ts)
      && (Duration(s) == LastAccepted(ts) - ts[0] <==> ts[0] <= LastAccepted(ts))
    decreases |ts|
  {
    var s, t := VideoRun(ts), LastAccepted(ts);
    if |ts| == 1 {
      assert VideoRun(ts[..0]) == UNSET;
      W32Small(ts[0]);
    } else {
      VideoRunTracks(ts[..|ts|-1]);
      VideoTracks(VideoRun(ts[..|ts|-1]), LastAccepted(ts[..|ts|-1]), ts[|ts|-1]);
    }
    TracksExtended(s, t);
    if ts[0] <= t {
      W64Exact(t - ts[0]);
    }
  }

  /** The state of the audio receiver after the true timestamps `ts`. */
  function AudioRun(ts: seq<int>): Stamp
    decreases |ts|
  {
    if ts == [] then UNSET else AudioUpdate(AudioRun(ts[..|ts|-1]), W32(ts[|ts|-1]))
  }

  /** How many timestamps of a run leave the cycle of the one before downwards. */
  function BackWraps(ts: seq<int>): nat
    decreases |ts|
  {
    if |ts| <= 1 then 0
    else BackWraps(ts[..|ts|-1]) + (if WrapsBack(ts[|ts|-1], ts[|ts|-2]) then 1 else 0)
  }

  /** Each timestamp is within half a cycle of the one before, and the wrap counter does not overflow. */
  predicate Smooth(ts: seq<int>) {
    && (ts != [] ==> 0 <= ts[0] < CYCLE)
    && (forall i :: 0 < i < |ts| ==> -HALF_CYCLE < ts[i] - ts[i-1] < HALF_CYCLE)
    && (forall i :: 0 <= i < |ts| ==> ts[i] + CYCLE * |ts| < CYCLE * CYCLE)
  }

  lemma SmoothFront(ts: seq<int>)
    requires |ts| > 1 && Smooth(ts)
    ensures Smooth(ts[..|ts|-1])
  {
  }

  lemma {:induction false} AudioRunTracks(ts: seq<int>)
    requires ts != [] && Smooth(ts)
    ensures BackWraps(ts) < |ts| && Tracks(AudioRun(ts), ts[|ts|-1] + CYCLE * BackWraps(ts))
    decreases |ts|
  {
    if |ts| == 1 {
      assert AudioRun(ts[..0]) == UNSET;
      W32Small(ts[0]);
    } else {
      var f := ts[..|ts|-1];
      SmoothFront(ts);
      AudioRunTracks(f);
      AudioStepDrifts(AudioRun(f), ts[|ts|-2], ts[|ts|-1], BackWraps(f));
    }
  }

  /**
   * In every smooth run the audio receiver's extended timestamp is the true one
   * plus a cycle for each backward wrap, so it is right if and only if there was none.
   */
  lemma AudioRunDrifts(ts: seq<int>)
    requires ts != [] && Smooth(ts)
    ensures var s, t := AudioRun(ts), ts[|ts|-1];
      && Extended(s.numWraps, s.last) == t + CYCLE * BackWraps(ts)
      && (Extended(s.numWraps, s.last) == t <==> BackWraps(ts) == 0)
  {
    AudioRunTracks(ts);
    TracksExtended(AudioRun(ts), ts[|ts|-1] + CYCLE * BackWraps(ts));
  }

  lemma AudioStepDrifts(s: Stamp, last: int, t: int, k: nat)
    requires Tracks(s, last + CYCLE * k) && -HALF_CYCLE < t - last < HALF_CYCLE
    requires t + CYCLE * (k + 1) < CYCLE * CYCLE
    ensures Tracks(AudioUpdate(s, W32(t)), t + CYCLE * (if WrapsBack(t, last) then k + 1 else k))
  {
    WrapIsCycleStep(t, last);
    CycleShift(last, k);
    CycleShift(t, k);
    CycleShift(t, k + 1);
  }

  lemma CycleShift(t: int, k: int)
    ensures W32(t + CYCLE * k) == W32(t) && (t + CYCLE * k) / CYCLE == t / CYCLE + k
  {
  }

  lemma W32Small(x: int)
    requires 0 <= x < CYCLE
    ensures W32(x) == x
  {
  }

  /** The receiver's structure, updated in place. */
  class Tracker {
    var first: u32
    var last: u32
    var isSet: bool
    var numWraps: u32

    function View(): Stamp
      reads this
    {
      Stamp(first, last, isSet, numWraps)
    }

    constructor ()
      ensures View() == UNSET
    {
      first, last, isSet, numWraps := 0, 0, false, 0;
    }

    method SetFirst(ts: u32)
      modifies this
      ensures View() == Set(old(View()), ts)
    {
      first := ts;
      last := ts;
      isSet := true;
    }

    /** `update_rtp_timestamp`. */
    method UpdateVideo(ts: u32)
      modifies this
      ensures View() == VideoUpdate(old(View()), ts)
    {
      if isSet {
        var wrap := Wrap(ts, last);
        if wrap == -1 {
          return;
        } else if wrap == 1 {
          numWraps := W32(numWraps + 1);
        }
      } else {
        SetFirst(ts);
      }
      last := ts;
    }

    /** The timestamp part of `aurecv_receive`; the result says that the packet is discarded. */
    method UpdateAudio(ts: u32) returns (discard: bool)
      modifies this
      ensures View() == AudioUpdate(old(View()), ts)
      ensures discard <==> old(isSet) && Wrap(ts, old(last)) == -1
    {
      discard := false;
      if !isSet {
        SetFirst(ts);
      }
      var wrap := Wrap(ts, last);
      if wrap == -1 {
        discard := true;
      } else if wrap == 1 {
        numWraps := W32(numWraps + 1);
      }
      last := ts;
    }
  }
}
