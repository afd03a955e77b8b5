/**
 * Runs of the receiver together with its jitter buffer: packets come in, due
 * frames are decoded, the buffer is flushed.  When `pseq` of the receiver and
 * `seq_get` of the buffer agree is determined exactly, and what is reported lost
 * is compared with the numbers that were passed over.
 */
module ReceiverRun {
  import opened Words
  import opened JbufModel
  import opened JbufRun
  import opened JbufOrder
  import opened LossAccounting
  import opened JitterBuffer
  import opened Receiver

  /** `rtprecv_decode`, `decode_frames`, `rtprecv_flush` or `rtprecv_set_ssrc`. */
  datatype Call<X> =
    | Incoming(h: Header<X>, m: Option<Mem>, c: Clock, ptOk: bool)
    | Due(next: u32)
    | Flushed
    | Named(ssrc: u32)

  lemma TakenSized<X>(s: State<X>, next: u32)
    requires Sized(s)
    ensures var r := GetStep(s, next); Sized(r.s) && r.s.cfg == s.cfg && (r.out.Some? ==> Sized(Taken(r)))
  {
  }

  lemma {:induction false} DecodeDueSized<X>(s: State<X>, src: Source, next: u32)
    requires Sized(s)
    ensures var d := DecodeDue(s, src, next); Sized(d.s) && d.s.cfg == s.cfg
    decreases |s.packets|
  {
    TakenSized(s, next);
    if s.packets != [] && s.packets[0].playout <= next {
      var s', src', h := DecodeUnfold(s, src, next);
      DecodeDueSized(s', src', next);
    }
  }

  function RxStep<X>(r: Rx<X>, call: Call<X>): (r': Rx<X>)
    requires Sized(r.s)
    ensures Sized(r'.s) && r'.s.cfg == r.s.cfg
  {
    match call
    case Incoming(h, m, c, ptOk) => DecodeStep(r, h, m, c, ptOk)
    case Due(next) => DecodeDueSized(r.s, r.src, next); FramesStep(r, next)
    case Flushed => FreeAllSize(r.s.packets); Rx(r.src, FlushStep(r.s))
    case Named(ssrc) => r.(src := r.src.(ssrc := ssrc))
  }

  /** A new receiver with a new buffer. */
  function NewRx<X>(cfg: Config): (r: Rx<X>)
    requires cfg.maxsz >= 1
    ensures Sized(r.s)
  {
    Rx(NO_SOURCE, Init(cfg))
  }

  // ---------------------------------------------------------------- the number that pseq stands for

  /** The value of `pseq` that stands for an extended number, or for none. */
  function Stands(u: Option<int>): u32 { if u.None? then NO_SEQ else W16(u.value) }

  /** `pseq` after the deliveries `us` of an epoch that began with the number `start`. */
  function PseqFrom(start: Option<int>, us: seq<int>): u32
    decreases |us|
  {
    if us == [] then Stands(start) else LostCalc(PseqFrom(start, Front(us)), W16(Last(us))).0
  }

  /** What is reported lost for the deliveries `us`. */
  function LostFrom(start: Option<int>, us: seq<int>): nat
    decreases |us|
  {
    if us == [] then 0
    else LostFrom(start, Front(us)) + NonNegative(LostCalc(PseqFrom(start, Front(us)), W16(Last(us))).1)
  }

  /** Deliveries up to 100 below the start are taken for reordered packets; other ones are followed. */
  predicate Follows(start: Option<int>, us: seq<int>)
    requires us != []
  {
    start.None? || start.value <= Last(us) || start.value - us[0] > 100
  }

  /** The number that `pseq` stands for after the deliveries `us`. */
  function Reached(start: Option<int>, us: seq<int>): Option<int> {
    if us == [] then start else if Follows(start, us) then Some(Last(us)) else start
  }

  /** The first delivery is within half a cycle of the start. */
  predicate Reachable(start: Option<int>, us: seq<int>) {
    start.Some? && us != [] ==> -HALF < us[0] - start.value <= HALF
  }

  /** A step back, or none: up to 100 numbers it is ignored, beyond that it is followed. */
  lemma BackwardStep(p: int, v: int)
    requires -HALF < v - p <= 0
    ensures LostCalc(W16(p), W16(v)).0 == if v - p < -100 then W16(v) else W16(p)
    ensures LostCalc(W16(p), W16(v)).1 <= 0
  {
    if v == p {
      W16Small(0);
    } else {
      BackwardResidue(p, v);
    }
  }

  lemma BackwardResidue(p: int, v: int)
    requires -HALF < v - p < 0
    ensures W16(W16(v) - W16(p)) == v - p + 0x1_0000
  {
  }

  /** One delivery more, from the number that `pseq` stands for. */
  lemma ReachedStep(start: Option<int>, us: seq<int>)
    requires us != [] && Climbing(us) && Reachable(start, us)
    ensures LostCalc(Stands(Reached(start, Front(us))), W16(Last(us))).0 == Stands(Reached(start, us))
  {
    var f, v := Front(us), Last(us);
    var p := Reached(start, f);
    if f != [] {
      ClimbingIsStrict(us, 0, |us| - 1);
    }
    if p.Some? {
      if p.value < v {
        ForwardStep(p.value, v);
      } else {
        BackwardStep(p.value, v);
      }
    }
  }

  /** What `pseq` stands for along the increasing deliveries of an epoch. */
  lemma {:induction false} PseqReached(start: Option<int>, us: seq<int>)
    requires Climbing(us) && Reachable(start, us)
    ensures PseqFrom(start, us) == Stands(Reached(start, us))
    decreases |us|
  {
    if us != [] {
      PseqReached(start, Front(us));
      ReachedStep(start, us);
    }
  }

  // ---------------------------------------------------------------- steps

  /**
   * What is known about the present epoch of the buffer: its trail, the number
   * that `pseq` stood for when it began, and what was reported lost since.
   */
  datatype Link = Link(t: Trail, start: Option<int>, lost: nat)

  /** A call, and the base of the epoch that it starts if it empties the buffer. */
  datatype RxEvent = RxEvent(call: Call<int>, base: int)

  function LinkHandled(l: Link, h: Handled<int>): Link {
    Link(Follow(l.t, Some(h.pkt)), l.start, l.lost + h.lostc)
  }

  function LinkAll(l: Link, hs: seq<Handled<int>>): Link
    decreases |hs|
  {
    if hs == [] then l else LinkAll(LinkHandled(l, hs[0]), hs[1..])
  }

  /** The number below the one that sets up a receiver; number 0 leaves a new receiver without one. */
  function StartOf(r: Rx<int>, h: Header<int>): Option<int> {
    if !r.src.pseqSet && h.seqno == 0 then None else Some(h.x - 1)
  }

  predicate SetsUp(r: Rx<int>, h: Header<int>) { !r.src.pseqSet || ChangesSource(r.src, h) }

  function TrailMet(r: Rx<int>, l: Link, e: RxEvent): Trail
    requires e.call.Incoming?
  {
    if ChangesSource(r.src, e.call.h) then Trail(e.base, []) else l.t
  }

  /** The buffer is emptied, and `pseq` goes on from where it stands. */
  function Emptied(l: Link, base: int): Link {
    Link(Trail(base, []), Reached(l.start, l.t.out), 0)
  }

  /** The set-up for a packet. */
  function LinkMet(r: Rx<int>, l: Link, e: RxEvent): Link
    requires e.call.Incoming?
  {
    if SetsUp(r, e.call.h) then Link(TrailMet(r, l, e), StartOf(r, e.call.h), 0) else l
  }

  /** The base of the epoch that the put of a packet starts if it empties the buffer, the set-up not having done so. */
  function PutBase(r: Rx<int>, l: Link, e: RxEvent): int
    requires e.call.Incoming?
  {
    if SetsUp(r, e.call.h) then TrailMet(r, l, e).base else e.base
  }

  function LinkStep(r: Rx<int>, l: Link, e: RxEvent): Link
    requires Sized(r.s)
  {
    match e.call
    case Incoming(h, m, c, ptOk) =>
      if ptOk && Resyncs(Met(r, h), Put(h, m, c)) then Emptied(LinkMet(r, l, e), PutBase(r, l, e)) else LinkMet(r, l, e)
    case Due(next) => LinkAll(l, DecodeDue(r.s, r.src, next).handled)
    case Flushed => Emptied(l, e.base)
    case Named(ssrc) => l
  }

  /** The window above `base` contains the number that `pseq` stands for. */
  predicate Continues(l: Link, base: int) {
    var u := Reached(l.start, l.t.out);
    u.Some? ==> base <= u.value <= base + HALF
  }

  /**
   * What a run must offer: packets are fair to the buffer, and when it is
   * emptied without a new set-up they come from a half cycle that contains the
   * number that `pseq` stands for.
   */
  predicate RxFair(r: Rx<int>, l: Link, e: RxEvent)
    requires Sized(r.s)
  {
    match e.call
    case Incoming(h, m, c, ptOk) =>
      ptOk || SetsUp(r, h) ==>
        var op := Put(h, m, c);
        && Fair(Met(r, h), TrailMet(r, l, e), Event(op, PutBase(r, l, e)))
        && (!SetsUp(r, h) && Resyncs(r.s, op) ==> Continues(l, e.base))
    case Due(next) => true
    case Flushed => Continues(l, e.base)
    case Named(ssrc) => true
  }

  /** The start lies in the window of an epoch without deliveries, or near the first of them. */
  predicate Placed(l: Link) {
    && Reachable(l.start, l.t.out)
    && (l.start.Some? && l.t.out == [] ==> l.t.base <= l.start.value <= l.t.base + HALF)
  }

  /** What every state of a fair run keeps. */
  ghost predicate Linked(r: Rx<int>, l: Link) {
    && Sized(r.s) && Ordered(r.s, l.t) && Placed(l)
    && r.src.pseq == PseqFrom(l.start, l.t.out) && l.lost == LostFrom(l.start, l.t.out)
    && (r.s.packets != [] || l.t.out != [] ==> r.src.pseqSet)
  }

  /** The value of `pseq` after set-up. */
  lemma SetUpStands(r: Rx<int>, h: Header<int>)
    requires SetsUp(r, h) && W16(h.x) == h.seqno
    ensures SetUp(r.src, h).pseq == Stands(StartOf(r, h))
  {
    W16Absorb(h.x, -1);
    if !r.src.pseqSet {
      if h.seqno == 0 {
        W32Negative(-1);
      } else {
        W32Residue(h.seqno - 1, h.seqno - 1, 0);
        W16Small(h.seqno - 1);
      }
    }
  }

  /** Before the put: the source is set up, the buffer perhaps emptied. */
  lemma MetLinked(r: Rx<int>, l: Link, e: RxEvent)
    requires Linked(r, l) && e.call.Incoming? && RxFair(r, l, e)
    ensures Linked(Rx(SetUp(r.src, e.call.h), Met(r, e.call.h)), LinkMet(r, l, e))
  {
    var h := e.call.h;
    if SetsUp(r, h) {
      SetUpStands(r, h);
      assert Ordered(Met(r, h), TrailMet(r, l, e));
    }
  }

  lemma EmptiedPlaced(l: Link, base: int)
    requires Climbing(l.t.out) && Reachable(l.start, l.t.out) && Continues(l, base)
    ensures Placed(Emptied(l, base))
    ensures PseqFrom(Emptied(l, base).start, []) == PseqFrom(l.start, l.t.out)
  {
    PseqReached(l.start, l.t.out);
  }

  /** The put keeps the link, also when it empties the buffer because the buffer knows another source. */
  lemma PutLinked(r: Rx<int>, l: Link, h: Header<int>, m: Option<Mem>, c: Clock, base: int)
    requires Linked(r, l) && r.src.pseqSet && Fair(r.s, l.t, Event(Put(h, m, c), base))
    requires Resyncs(r.s, Put(h, m, c)) ==> Continues(l, base)
    ensures Linked(Rx(r.src, PutStep(r.s, h, m, c).s), if Resyncs(r.s, Put(h, m, c)) then Emptied(l, base) else l)
  {
    PutRefinesSortedSet(r.s, l.t, Event(Put(h, m, c), base));
    if Resyncs(r.s, Put(h, m, c)) {
      EmptiedPlaced(l, base);
    }
  }

  lemma DecodeLinked(r: Rx<int>, l: Link, e: RxEvent)
    requires Linked(r, l) && e.call.Incoming? && RxFair(r, l, e)
    ensures Linked(RxStep(r, e.call), LinkStep(r, l, e))
  {
    var Incoming(h, m, c, ptOk) := e.call;
    MetLinked(r, l, e);
    if ptOk {
      assert LinkMet(r, l, e).t == TrailMet(r, l, e);
      PutLinked(Rx(SetUp(r.src, h), Met(r, h)), LinkMet(r, l, e), h, m, c, PutBase(r, l, e));
    }
  }

  /** One delivery more, as the link counts it. */
  lemma LinkNumbers(l: Link, u: int)
    requires Placed(l) && l.t.base < u <= l.t.base + HALF && l.lost == LostFrom(l.start, l.t.out)
    ensures var l' := Link(Trail(u, l.t.out + [u]), l.start,
                           l.lost + NonNegative(LostCalc(PseqFrom(l.start, l.t.out), W16(u)).1));
      && Placed(l') && l'.lost == LostFrom(l.start, l'.t.out)
      && PseqFrom(l.start, l'.t.out) == LostCalc(PseqFrom(l.start, l.t.out), W16(u)).0
  {
    assert Front(l.t.out + [u]) == l.t.out && Last(l.t.out + [u]) == u;
  }

  /** One pass of the decode loop. */
  lemma TakenLinked(s: State<int>, src: Source, l: Link, next: u32)
    requires Linked(Rx(src, s), l) && s.packets != [] && s.packets[0].playout <= next
    ensures var r := GetStep(s, next);
      var (src', h) := Handle(src, s.packets[0], r.err == EAGAIN);
      Linked(Rx(src', Taken(r)), LinkHandled(l, h))
  {
    GetOrdered(s, l.t, next);
    TakenSized(s, next);
    TakenShape(s, next);
    LinkNumbers(l, s.packets[0].hdr.x);
  }

  lemma {:induction false} DueLinked(s: State<int>, src: Source, l: Link, next: u32)
    requires Linked(Rx(src, s), l)
    ensures var d := DecodeDue(s, src, next); Linked(Rx(d.src, d.s), LinkAll(l, d.handled))
    decreases |s.packets|
  {
    if s.packets != [] && s.packets[0].playout <= next {
      TakenLinked(s, src, l, next);
      var s', src', h := DecodeUnfold(s, src, next);
      DueLinked(s', src', LinkHandled(l, h), next);
      var d := DecodeDue(s', src', next);
      assert ([h] + d.handled)[1..] == d.handled;
    }
  }

  lemma FlushLinked(r: Rx<int>, l: Link, e: RxEvent)
    requires Linked(r, l) && e.call.Flushed? && RxFair(r, l, e)
    ensures Linked(RxStep(r, e.call), LinkStep(r, l, e))
  {
    EmptiedPlaced(l, e.base);
  }

  /** Every fair step of the receiver keeps the link. */
  lemma StepLinked(r: Rx<int>, l: Link, e: RxEvent)
    requires Linked(r, l) && RxFair(r, l, e)
    ensures Linked(RxStep(r, e.call), LinkStep(r, l, e))
  {
    match e.call
    case Incoming(h, m, c, ptOk) => DecodeLinked(r, l, e);
    case Due(next) => DueLinked(r.s, r.src, l, next);
    case Flushed => FlushLinked(r, l, e);
    case Named(ssrc) =>
  }

  // ---------------------------------------------------------------- runs

  function RxExec<X>(r: Rx<X>, calls: seq<Call<X>>): (r': Rx<X>)
    requires Sized(r.s)
    ensures Sized(r'.s) && r'.s.cfg == r.s.cfg
    decreases |calls|
  {
    if calls == [] then r else RxStep(RxExec(r, Front(calls)), Last(calls))
  }

  function Calls(es: seq<RxEvent>): (r: seq<Call<int>>)
    ensures |r| == |es|
  {
    seq(|es|, i requires 0 <= i < |es| => es[i].call)
  }

  function LinkOf(r: Rx<int>, base: int, es: seq<RxEvent>): Link
    requires Sized(r.s)
    decreases |es|
  {
    if es == [] then Link(Trail(base, []), None, 0)
    else LinkStep(RxExec(r, Calls(Front(es))), LinkOf(r, base, Front(es)), Last(es))
  }

  predicate RxFairRun(r: Rx<int>, base: int, es: seq<RxEvent>)
    requires Sized(r.s)
    decreases |es|
  {
    es == [] ||
    (RxFairRun(r, base, Front(es)) && RxFair(RxExec(r, Calls(Front(es))), LinkOf(r, base, Front(es)), Last(es)))
  }

  lemma NewLinked(cfg: Config, base: int)
    requires cfg.maxsz >= 1
    ensures Linked(NewRx(cfg), Link(Trail(base, []), None, 0))
  {
  }

  lemma RunUnfold(r: Rx<int>, base: int, es: seq<RxEvent>)
    requires Sized(r.s) && es != []
    ensures var q, l := RxExec(r, Calls(Front(es))), LinkOf(r, base, Front(es));
      RxExec(r, Calls(es)) == RxStep(q, Last(es).call) && LinkOf(r, base, es) == LinkStep(q, l, Last(es))
  {
    assert Front(Calls(es)) == Calls(Front(es));
  }

  lemma {:induction false} RunFromLinked(r: Rx<int>, base: int, es: seq<RxEvent>)
    requires Linked(r, Link(Trail(base, []), None, 0)) && RxFairRun(r, base, es)
    ensures Linked(RxExec(r, Calls(es)), LinkOf(r, base, es))
    decreases |es|
  {
    if es != [] {
      RunFromLinked(r, base, Front(es));
      RunUnfold(r, base, es);
      StepLinked(RxExec(r, Calls(Front(es))), LinkOf(r, base, Front(es)), Last(es));
    }
  }

  /** Every fair run of a new receiver keeps receiver and buffer linked. */
  lemma RunLinked(cfg: Config, base: int, es: seq<RxEvent>)
    requires cfg.maxsz >= 1 && RxFairRun(NewRx(cfg), base, es)
    ensures Linked(RxExec(NewRx(cfg), Calls(es)), LinkOf(NewRx(cfg), base, es))
  {
    NewLinked(cfg, base);
    RunFromLinked(NewRx(cfg), base, es);
  }

  lemma ResiduesDiffer(p: int, v: int)
    requires 0 < p - v <= 100
    ensures W16(p) != W16(v)
  {
  }

  lemma InStepIff(r: Rx<int>, l: Link)
    requires Linked(r, l) && l.t.out != []
    ensures r.src.pseq == r.s.seqGet <==> Follows(l.start, l.t.out)
  {
    PseqReached(l.start, l.t.out);
    if !Follows(l.start, l.t.out) {
      if |l.t.out| > 1 {
        ClimbingIsStrict(l.t.out, 0, |l.t.out| - 1);
      }
      ResiduesDiffer(l.start.value, Last(l.t.out));
    }
  }

  /**
   * In every fair run of a new receiver, once something was delivered in the
   * present epoch: `pseq` and `seq_get` agree if and only if no number was known
   * when the epoch began, or the deliveries have reached it, or they began more
   * than 100 below it.
   */
  lemma RunInStepIff(cfg: Config, base: int, es: seq<RxEvent>)
    requires cfg.maxsz >= 1 && RxFairRun(NewRx(cfg), base, es) && LinkOf(NewRx(cfg), base, es).t.out != []
    ensures var r, l := RxExec(NewRx(cfg), Calls(es)), LinkOf(NewRx(cfg), base, es);
      r.src.pseq == r.s.seqGet <==>
        l.start.None? || l.start.value <= Last(l.t.out) || l.start.value - l.t.out[0] > 100
  {
    RunLinked(cfg, base, es);
    InStepIff(RxExec(NewRx(cfg), Calls(es)), LinkOf(NewRx(cfg), base, es));
  }

  /** The deliveries above `p`. */
  function Above(p: int, us: seq<int>): seq<int>
    decreases |us|
  {
    if us == [] then [] else Above(p, Front(us)) + (if Last(us) > p then [Last(us)] else [])
  }

  function MaxLast(p: int, us: seq<int>): int { if us == [] || Last(us) <= p then p else Last(us) }

  lemma AboveSplit(p: int, us: seq<int>)
    requires us != []
    ensures [p] + Above(p, us) ==
      if Last(us) > p then ([p] + Above(p, Front(us))) + [Last(us)] else [p] + Above(p, Front(us))
  {
  }

  lemma {:induction false} AboveShape(p: int, us: seq<int>)
    requires Climbing(us) && Reachable(Some(p), us)
    ensures Climbing([p] + Above(p, us)) && Last([p] + Above(p, us)) == MaxLast(p, us)
    decreases |us|
  {
    if us != [] {
      var before := [p] + Above(p, Front(us));
      AboveShape(p, Front(us));
      AboveSplit(p, us);
      if Last(us) > p {
        ClimbingSnoc(before, Last(us));
      }
    }
  }

  lemma PseqNear(p: int, us: seq<int>)
    requires Climbing(us) && Reachable(Some(p), us) && (us != [] ==> p - us[0] <= 100)
    ensures PseqFrom(Some(p), us) == W16(MaxLast(p, us))
  {
    PseqReached(Some(p), us);
  }

  lemma NearDistance(p: int, us: seq<int>)
    requires us != [] && Climbing(us) && Reachable(Some(p), us) && p - us[0] <= 100
    ensures if Last(us) <= p then p - Last(us) <= 100 && MaxLast(p, Front(us)) == p
            else MaxLast(p, Front(us)) < Last(us) <= MaxLast(p, Front(us)) + HALF
  {
    if |us| > 1 {
      ClimbingIsStrict(us, 0, |us| - 1);
    }
  }

  /** What is lost for one delivery more, counted from the larger of the start and the delivery before. */
  lemma NearStep(p: int, us: seq<int>)
    requires us != [] && Climbing(us) && Reachable(Some(p), us) && p - us[0] <= 100
    ensures LostFrom(Some(p), us) == LostFrom(Some(p), Front(us)) +
      if Last(us) <= p then 0 else Skipped(MaxLast(p, Front(us)), Last(us))
  {
    var last, v := MaxLast(p, Front(us)), Last(us);
    PseqNear(p, Front(us));
    NearDistance(p, us);
    if v <= p {
      BackwardStep(p, v);
    } else {
      ForwardStep(last, v);
    }
  }

  /** A start that the deliveries begin at most 100 below is counted from, once they pass it. */
  lemma {:induction false} LostNear(p: int, us: seq<int>)
    requires Climbing(us) && Reachable(Some(p), us) && (us != [] ==> p - us[0] <= 100)
    ensures LostFrom(Some(p), us) == LostTotal([p] + Above(p, us))
    decreases |us|
  {
    if us != [] {
      var before := [p] + Above(p, Front(us));
      LostNear(p, Front(us));
      NearStep(p, us);
      AboveSplit(p, us);
      if Last(us) > p {
        AboveShape(p, Front(us));
        NearDistance(p, us);
        LostSnoc(before, Last(us));
      }
    }
  }

  /** A followed delivery counts as a step from the one before. */
  lemma FollowedStep(start: Option<int>, us: seq<int>)
    requires |us| > 1 && Climbing(us) && Reachable(start, us) && Follows(start, Front(us))
    ensures LostFrom(start, us) == LostFrom(start, Front(us)) + Skipped(Last(Front(us)), Last(us))
  {
    PseqReached(start, Front(us));
    ForwardStep(Last(Front(us)), Last(us));
  }

  /** A start that is not known, or that the deliveries begin more than 100 below, plays no part. */
  lemma {:induction false} LostFar(start: Option<int>, us: seq<int>)
    requires us != [] && Climbing(us) && Reachable(start, us) && (start.None? || start.value - us[0] > 100)
    ensures LostFrom(start, us) == LostTotal(us)
    decreases |us|
  {
    if |us| == 1 {
      assert Front(us) == [];
      if start.Some? {
        BackwardStep(start.value, us[0]);
      }
    } else {
      var f := Front(us);
      LostFar(start, f);
      FollowedStep(start, us);
      assert us == f + [Last(us)];
      LostSnoc(f, Last(us));
    }
  }

  /**
   * The numbers that an epoch accounts for: the one known before it and the
   * deliveries above that, or all deliveries if none was known or they begin
   * more than 100 below it.
   */
  function Accounted(start: Option<int>, us: seq<int>): (r: seq<int>)
    requires us != []
    ensures r != []
  {
    if start.None? || start.value - us[0] > 100 then us else [start.value] + Above(start.value, us)
  }

  lemma AccountedLoss(start: Option<int>, us: seq<int>)
    requires us != [] && Climbing(us) && Reachable(start, us)
    ensures Climbing(Accounted(start, us)) && LostFrom(start, us) == LostTotal(Accounted(start, us))
  {
    if start.None? || start.value - us[0] > 100 {
      LostFar(start, us);
    } else {
      AboveShape(start.value, us);
      LostNear(start.value, us);
    }
  }

  /**
   * Loss accounting of the whole receiver: in every fair run, what `lostcalc`
   * counted in the present epoch plus the deliveries accounted for is at most
   * the distance that they cover, and equal to it if and only if no step was a
   * jump.
   */
  lemma RunReportsLoss(cfg: Config, base: int, es: seq<RxEvent>)
    requires cfg.maxsz >= 1 && RxFairRun(NewRx(cfg), base, es) && LinkOf(NewRx(cfg), base, es).t.out != []
    ensures var l := LinkOf(NewRx(cfg), base, es);
      var us := Accounted(l.start, l.t.out);
      && l.lost + |us| - 1 <= Last(us) - us[0]
      && (l.lost + |us| - 1 == Last(us) - us[0] <==> NoJump(us))
  {
    RunLinked(cfg, base, es);
    var l := LinkOf(NewRx(cfg), base, es);
    AccountedLoss(l.start, l.t.out);
    LossBalance(Accounted(l.start, l.t.out));
  }

  function ExampleHeader(u: int): Header<int> { Header(W16(u), 160, 1, 7, true, u) }

  lemma TenSetsUp(cfg: Config)
    requires cfg.maxsz >= 1
    ensures DecodeStep(NewRx(cfg), ExampleHeader(10), None, Clock(0, 0, 0), false)
         == Rx(Source(7, 9, true, false), Init(cfg))
  {
  }

  lemma EightIsStored(r: Rx<int>)
    requires Idle(r.s, 7) && r.src == Source(7, 9, true, false)
    ensures var r' := DecodeStep(r, ExampleHeader(8), None, Clock(0, 0, 0), true);
      r'.src == r.src && |r'.s.packets| == 1 && r'.s.packets[0].hdr == ExampleHeader(8)
  {
    PutIntoEmpty(r.s, ExampleHeader(8), None, Clock(0, 0, 0));
  }

  lemma OnlyDelivered(r: Rx<int>, next: u32)
    requires |r.s.packets| == 1 && r.s.packets[0].playout <= next
    ensures var d := DecodeDue(r.s, r.src, next);
      && d.src.pseq == LostCalc(r.src.pseq, r.s.packets[0].hdr.seqno).0
      && d.s.seqGet == r.s.packets[0].hdr.seqno
  {
    DrainIsDuePrefix(r.s, r.src, next);
    assert DueCount(r.s.packets, next) == 1;
    assert PseqAt(r.src.pseq, r.s.packets, 0) == r.src.pseq;
  }

  lemma NineStays()
    ensures LostCalc(9, 8).0 == 9
  {
  }

  lemma EightIsDelivered(r: Rx<int>)
    requires r.src.pseq == 9 && |r.s.packets| == 1 && r.s.packets[0].hdr.seqno == 8
    ensures var r' := FramesStep(r, 0xFFFF_FFFF); r'.src.pseq == 9 && r'.s.seqGet == 8
  {
    OnlyDelivered(r, 0xFFFF_FFFF);
    NineStays();
  }

  /** Three calls that lead out of step: number 10 sets the receiver up but is not stored, and 8 is delivered. */
  lemma ReorderedIsOutOfStep(cfg: Config)
    requires cfg.maxsz >= 1 && cfg.srate > 0
    ensures
      var r1 := DecodeStep(NewRx(cfg), ExampleHeader(10), None, Clock(0, 0, 0), false);
      var r2 := DecodeStep(r1, ExampleHeader(8), None, Clock(0, 0, 0), true);
      var r3 := FramesStep(r2, 0xFFFF_FFFF);
      r3.src.pseq == 9 && r3.s.seqGet == 8
  {
    TenSetsUp(cfg);
    var r1 := Rx(Source(7, 9, true, false), Init(cfg));
    EightIsStored(r1);
    EightIsDelivered(DecodeStep(r1, ExampleHeader(8), None, Clock(0, 0, 0), true));
  }

  // ---------------------------------------------------------------- the objects

  /** The buffer counts its packets, and it has some only with a clock rate. */
  predicate Sound<X>(s: State<X>) {
    Sized(s) && s.n == |s.packets| && (s.packets != [] ==> s.cfg.srate > 0)
  }

  lemma AllocCounts<X>(s: State<X>)
    requires Sound(s)
    ensures var a := Alloc(s).0; a.n == |a.packets| + 1
  {
  }

  lemma EnterCounts<X>(a: State<X>, cell: Cell, h: Header<X>, m: Option<Mem>, c: Clock)
    requires a.cfg.srate > 0 && a.n == |a.packets| + 1
    ensures var r := Enter(a, cell, h, m, c).s; r.n == |r.packets|
  {
    var r := Enter(a, cell, h, m, c);
    assert Entered(a, cell, h, m, EntryPlayout(a, h), r.s, r.err);
    W32Residue(a.n - 1, a.n - 1, 0);
  }

  lemma AcceptSound<X>(s: State<X>, h: Header<X>, m: Option<Mem>, c: Clock)
    requires Sound(s) && s.cfg.srate > 0
    ensures Sound(Accept(s, h, m, c).s)
  {
    AllocCounts(CountPut(s));
    var (a, cell) := Alloc(CountPut(s));
    EnterCounts(a, cell, h, m, c);
  }

  lemma PutSound<X>(s: State<X>, h: Header<X>, m: Option<Mem>, c: Clock)
    requires Sound(s)
    ensures Sound(PutStep(s, h, m, c).s)
  {
    FreeAllSize(s.packets);
    var s1 := Resynced(s, h).(ssrc := h.ssrc);
    if h.tsArrive != 0 && s.cfg.srate > 0 && !TooLate(s1, h.seqno) {
      AcceptSound(s1, h, m, c);
    }
  }

  lemma TakenSound<X>(s: State<X>, next: u32)
    requires Sound(s)
    ensures var r := GetStep(s, next); if r.out.Some? then Sound(Taken(r)) else Sound(r.s)
  {
    if GetStep(s, next).out.Some? {
      TakenShape(s, next);
      TakenSized(s, next);
      W32Residue(s.n - 1, s.n - 1, 0);
    }
  }

  lemma {:induction false} DueSound<X>(s: State<X>, src: Source, next: u32)
    requires Sound(s)
    ensures Sound(DecodeDue(s, src, next).s)
    decreases |s.packets|
  {
    TakenSound(s, next);
    if s.packets != [] && s.packets[0].playout <= next {
      var s', src', h := DecodeUnfold(s, src, next);
      DueSound(s', src', next);
    }
  }

  lemma StepSound<X>(r: Rx<X>, call: Call<X>)
    requires Sound(r.s)
    ensures Sound(RxStep(r, call).s)
  {
    FreeAllSize(r.s.packets);
    match call
    case Incoming(h, m, c, ptOk) => PutSound(Met(r, h), h, m, c);
    case Due(next) => DueSound(r.s, r.src, next);
    case Flushed =>
    case Named(ssrc) =>
  }

  /** Any sequence of calls on a new receiver with a new buffer is a run. */
  method Drive<X>(cfg: Config, calls: seq<Call<X>>) returns (rx: RtpReceiver<X>)
    requires cfg.maxsz >= 1
    ensures fresh(rx) && rx.jbuf != null && rx.View() == RxExec(NewRx(cfg), calls)
  {
    var jbuf := new Jbuf<X>(cfg);
    rx := new RtpReceiver<X>(jbuf);
    for i := 0 to |calls|
      invariant fresh(rx) && fresh(jbuf) && rx.jbuf == jbuf && rx.enabled
      invariant rx.View() == RxExec(NewRx(cfg), calls[..i]) && Sound(jbuf.View())
    {
      assert Front(calls[..i+1]) == calls[..i];
      StepSound(rx.View(), calls[i]);
      Perform(rx, calls[i]);
    }
    assert calls[..|calls|] == calls;
  }

  method Perform<X>(rx: RtpReceiver<X>, call: Call<X>)
    requires rx.jbuf != null && rx.enabled && Sound(rx.jbuf.View())
    modifies rx, rx.jbuf
    ensures rx.enabled && rx.View() == RxStep(old(rx.View()), call)
  {
    match call
    case Incoming(h, m, c, ptOk) => var err, direct := rx.Decode(h, m, c, false, ptOk);
    case Due(next) => var handled := rx.DecodeFrames(next);
    case Flushed => rx.FlushBuffer();
    case Named(ssrc) => rx.SetSsrc(ssrc);
  }
}
