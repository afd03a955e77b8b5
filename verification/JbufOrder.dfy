/**
 * Order in the jitter buffer.  A header's `x` is here its extended sequence
 * number, the unbounded number that the 16-bit one is a residue of.  The late
 * filter keeps all buffered numbers in one half-cycle window, so that the
 * serial comparisons of the list search are comparisons of extended numbers:
 * the list is a sorted set, and deliveries are strictly increasing.
 */
module JbufOrder {
  import opened Words
  import opened JbufModel
  import opened JbufRun
  import JbufSkew

  const HALF := 0x8000

  /**
   * An operation, and the base of the epoch that it starts if it flushes: the
   * number just below the window that the new epoch's packets come from.
   */
  datatype Event = Event(op: Op<int>, base: int)

  /** The numbers delivered since the last flush, and the lower end of the window. */
  datatype Trail = Trail(base: int, out: seq<int>)

  function Follow(t: Trail, out: Option<Packet<int>>): Trail {
    if out.Some? then Trail(out.value.hdr.x, t.out + [out.value.hdr.x]) else t
  }

  /** The trail of the epoch that an operation works in. */
  function EpochTrail(s: State<int>, t: Trail, e: Event): Trail {
    if Flushes(s, e.op) then Trail(e.base, []) else t
  }

  function TrailStep(s: State<int>, t: Trail, e: Event): Trail
    requires Sized(s)
  {
    Follow(EpochTrail(s, t, e), Step(s, e.op).out)
  }

  /** Each number lies above the one before it, by at most half the cycle. */
  predicate Climbing(us: seq<int>) {
    forall i :: 0 < i < |us| ==> us[i-1] < us[i] <= us[i-1] + HALF
  }

  /** Extended numbers match the wire, lie in the window above `base` and increase strictly. */
  predicate Sorted(ps: seq<Packet<int>>, base: int) {
    && (forall i :: 0 <= i < |ps| ==> W16(ps[i].hdr.x) == ps[i].hdr.seqno && base < ps[i].hdr.x <= base + HALF)
    && (forall i, j :: 0 <= i < j < |ps| ==> ps[i].hdr.x < ps[j].hdr.x)
  }

  /** What every state of a fair run keeps. */
  predicate Ordered(s: State<int>, t: Trail) {
    && Sorted(s.packets, t.base)
    && Climbing(t.out)
    && (s.packets != [] ==> s.running)
    && (t.out == [] ==> s.seqGet == 0)
    && (t.out != [] ==> s.running && Last(t.out) == t.base && s.seqGet == W16(t.base))
  }

  /** The base and the filter state that a put sees. */
  function BaseFor(s: State<int>, t: Trail, e: Event): int {
    if Resyncs(s, e.op) then e.base else t.base
  }

  predicate FilterOff(s: State<int>, op: Op<int>) {
    Resyncs(s, op) || s.seqGet == 0
  }

  /**
   * What a run must offer: while `seq_get` reads 0, when the buffer does not
   * filter, nothing arrives from below the window.  The other two conditions
   * only fix which number the 16-bit one is extended to; `Nearest` always
   * meets them.
   */
  predicate Fair(s: State<int>, t: Trail, e: Event) {
    e.op.Put? ==>
      var u, base := e.op.h.x, BaseFor(s, t, e);
      && W16(u) == e.op.h.seqno
      && base - HALF < u <= base + HALF
      && (FilterOff(s, e.op) ==> base < u)
  }

  /** The extended number that a 16-bit number stands for near `base`. */
  function Nearest(base: int, seqno: u16): int {
    base - HALF + 1 + W16(seqno - (base - HALF + 1))
  }

  /** Every 16-bit number has exactly one extension in the window around `base`. */
  lemma NearestExtends(base: int, seqno: u16, u: int)
    ensures W16(u) == seqno && base - HALF < u <= base + HALF <==> u == Nearest(base, seqno)
  {
    var lo := base - HALF + 1;
    W16Absorb(seqno - lo, lo);
    if W16(u) == seqno && lo <= u < lo + 0x1_0000 {
      W16Absorb(u, -lo);
    }
  }

  // ---------------------------------------------------------------- search

  /** The backward search finds the place of `u` in the sorted list, or `u` itself. */
  lemma {:induction false} LocateSorted(ps: seq<Packet<int>>, base: int, u: int, k: nat)
    requires Sorted(ps, base) && base < u <= base + HALF
    requires k <= |ps| && forall j :: k <= j < |ps| ==> u < ps[j].hdr.x
    ensures var r := Locate(ps, W16(u), k);
      match r
      case At(i) => (forall j :: 0 <= j < i ==> ps[j].hdr.x < u) && (forall j :: i <= j < |ps| ==> u < ps[j].hdr.x)
      case Dup(i) => ps[i].hdr.x == u
    decreases k
  {
    if k > 0 {
      SeqLessUnwrapped(ps[k-1].hdr.x, u);
      if u < ps[k-1].hdr.x {
        LocateSorted(ps, base, u, k - 1);
      }
    }
  }

  /** The serial comparison is a strict total order on the buffered numbers. */
  lemma SerialOrderIsTotal(s: State<int>, t: Trail, i: nat, j: nat)
    requires Ordered(s, t) && i < j < |s.packets|
    ensures SeqLess(s.packets[i].hdr.seqno, s.packets[j].hdr.seqno)
    ensures !SeqLess(s.packets[j].hdr.seqno, s.packets[i].hdr.seqno)
    ensures s.packets[i].hdr.seqno != s.packets[j].hdr.seqno
  {
    SeqLessUnwrapped(s.packets[i].hdr.x, s.packets[j].hdr.x);
    SeqLessUnwrapped(s.packets[j].hdr.x, s.packets[i].hdr.x);
  }

  /** Near the last delivery the filter rejects exactly what was delivered or passed over, unless it is off. */
  lemma LateFilterExact(s: State<int>, t: Trail, u: int)
    requires Ordered(s, t) && t.base - HALF < u <= t.base + HALF
    ensures TooLate(s, W16(u)) <==> s.seqGet != 0 && u <= t.base
  {
    if s.seqGet != 0 {
      SeqLessUnwrapped(u, t.base + 1);
      W16Succ(t.base);
    }
  }

  // ---------------------------------------------------------------- refinement of a sorted set

  ghost function Numbers(ps: seq<Packet<int>>): set<int> {
    set i | 0 <= i < |ps| :: ps[i].hdr.x
  }

  /** What is left of the buffer once a structure is found for a new packet. */
  ghost function Kept(s: State<int>): set<int>
    requires Sized(s)
  {
    if s.pool == [] then Numbers(s.packets[1..]) else Numbers(s.packets)
  }

  lemma InsertNumbers(ps: seq<Packet<int>>, i: nat, f: Packet<int>)
    requires i <= |ps|
    ensures Numbers(InsertAt(ps, i, f)) == Numbers(ps) + {f.hdr.x}
  {
    var r := InsertAt(ps, i, f);
    assert forall j :: 0 <= j < |r| ==> r[j] == if j < i then ps[j] else if j == i then f else ps[j-1];
    forall u | u in Numbers(ps) ensures u in Numbers(r) {
      var j :| 0 <= j < |ps| && ps[j].hdr.x == u;
      assert r[if j < i then j else j + 1].hdr.x == u;
    }
    assert f.hdr.x in Numbers(r) by { assert r[i].hdr.x == f.hdr.x; }
  }

  lemma InsertSorted(ps: seq<Packet<int>>, base: int, i: nat, f: Packet<int>)
    requires Sorted(ps, base) && i <= |ps|
    requires W16(f.hdr.x) == f.hdr.seqno && base < f.hdr.x <= base + HALF
    requires forall j :: 0 <= j < i ==> ps[j].hdr.x < f.hdr.x
    requires forall j :: i <= j < |ps| ==> f.hdr.x < ps[j].hdr.x
    ensures Sorted(InsertAt(ps, i, f), base)
    ensures f.hdr.x !in Numbers(ps)
  {
    var r := InsertAt(ps, i, f);
    assert forall j :: 0 <= j < |r| ==> r[j] == if j < i then ps[j] else if j == i then f else ps[j-1];
  }

  /** What a put may do to the set of buffered numbers, by its error code. */
  ghost predicate PutOnSet(kept: set<int>, after: set<int>, u: int, err: Err) {
    match err
    case Ok => u !in kept && after == kept + {u}
    case EALREADY => u in kept && after == kept
    case ETIME => u !in kept && after == kept
    case _ => false
  }

  lemma EnterSorted(a: State<int>, cell: Cell, h: Header<int>, m: Option<Mem>, c: Clock, base: int)
    requires a.cfg.srate > 0 && Sorted(a.packets, base)
    requires W16(h.x) == h.seqno && base < h.x <= base + HALF
    ensures var r := Enter(a, cell, h, m, c);
      && Sorted(r.s.packets, base)
      && PutOnSet(Numbers(a.packets), Numbers(r.s.packets), h.x, r.err)
      && r.s.seqGet == a.seqGet
      && (a.running ==> r.s.running)
      && (a.packets == [] ==> r.s.running)
  {
    LocateSorted(a.packets, base, h.x, |a.packets|);
    match Locate(a.packets, h.seqno, |a.packets|)
    case Dup(i) =>
    case At(i) =>
      var b := Announce(a, i, h.seqno).0;
      var playout := PlayoutStep(b.cfg, b.p, b.stat, Before(b.packets, i), h).2;
      InsertSorted(a.packets, base, i, Packet(cell.slot, h, playout, m));
      InsertNumbers(a.packets, i, Packet(cell.slot, h, playout, m));
  }

  lemma AcceptOrdered(s: State<int>, t: Trail, h: Header<int>, m: Option<Mem>, c: Clock)
    requires Sized(s) && s.cfg.srate > 0 && Ordered(s, t)
    requires W16(h.x) == h.seqno && t.base < h.x <= t.base + HALF
    ensures var r := Accept(s, h, m, c);
      Ordered(r.s, t) && PutOnSet(Kept(s), Numbers(r.s.packets), h.x, r.err)
  {
    var (a, cell) := Alloc(CountPut(s));
    assert Numbers(a.packets) == Kept(s);
    EnterSorted(a, cell, h, m, c, t.base);
  }

  /** A put refines insertion into a bounded sorted set that evicts its minimum when full. */
  lemma PutRefinesSortedSet(s: State<int>, t: Trail, e: Event)
    requires Sized(s) && Ordered(s, t) && e.op.Put? && Fair(s, t, e)
    ensures var r := PutStep(s, e.op.h, e.op.m, e.op.c);
      && Ordered(r.s, EpochTrail(s, t, e))
      && (r.err == ETIMEDOUT ==> e.op.h.x <= t.base && r.s.packets == s.packets)
      && (r.err != EINVAL && r.err != ETIMEDOUT ==>
            && (Resyncs(s, e.op) || t.base < e.op.h.x)
            && PutOnSet(if Resyncs(s, e.op) then {} else Kept(s), Numbers(r.s.packets), e.op.h.x, r.err))
  {
    var h := e.op.h;
    FreeAllSize(s.packets);
    var s1 := Resynced(s, h).(ssrc := h.ssrc);
    var t0 := EpochTrail(s, t, e);
    if h.tsArrive != 0 && s1.cfg.srate != 0 {
      assert Ordered(s1, t0);
      LateFilterExact(s1, t0, h.x);
      if !TooLate(s1, h.seqno) {
        AcceptOrdered(s1, t0, h, e.op.m, e.op.c);
        if Resyncs(s, e.op) {
          assert Kept(s1) == {};
        } else {
          assert Kept(s1) == Kept(s);
        }
      }
    }
  }

  /** The head is the minimum of the set, and taking it leaves the rest. */
  lemma HeadIsMinimum(ps: seq<Packet<int>>, base: int)
    requires Sorted(ps, base) && ps != []
    ensures forall v :: v in Numbers(ps) ==> ps[0].hdr.x <= v
    ensures Numbers(ps[1..]) == Numbers(ps) - {ps[0].hdr.x}
  {
    forall v | v in Numbers(ps) && v != ps[0].hdr.x ensures v in Numbers(ps[1..]) {
      var j :| 0 <= j < |ps| && ps[j].hdr.x == v;
      assert ps[1..][j-1].hdr.x == v;
    }
  }

  lemma TailSorted(ps: seq<Packet<int>>, base: int)
    requires Sorted(ps, base) && ps != []
    ensures Sorted(ps[1..], ps[0].hdr.x)
  {
  }

  lemma ClimbingSnoc(us: seq<int>, u: int)
    requires Climbing(us) && (us != [] ==> Last(us) < u <= Last(us) + HALF)
    ensures Climbing(us + [u])
  {
  }

  lemma DeliverTakesHead(s: State<int>)
    requires s.packets != []
    ensures var r := Deliver(s);
      && r.packets == s.packets[1..] && r.seqGet == s.packets[0].hdr.seqno && r.running == s.running
  {
  }

  /** Delivery takes the minimum of the set, and it lies above everything delivered before. */
  lemma DeliverOrdered(s: State<int>, t: Trail)
    requires Ordered(s, t) && s.packets != []
    ensures var u := s.packets[0].hdr.x;
      && t.base < u
      && Ordered(Deliver(s), Follow(t, Some(s.packets[0])))
      && Numbers(Deliver(s).packets) == Numbers(s.packets) - {u}
  {
    DeliverTakesHead(s);
    TailSorted(s.packets, t.base);
    ClimbingSnoc(t.out, s.packets[0].hdr.x);
    HeadIsMinimum(s.packets, t.base);
  }

  lemma GetOrdered(s: State<int>, t: Trail, next: u32)
    requires Ordered(s, t)
    ensures var r := GetStep(s, next); Ordered(r.s, Follow(t, r.out))
  {
    if s.packets != [] {
      DeliverOrdered(CountLost(CountGet(s), LostBefore(s.seqGet, s.packets[0].hdr.seqno)), t);
    }
  }

  lemma DrainOrdered(s: State<int>, t: Trail)
    requires Ordered(s, t)
    ensures var r := DrainStep(s); Ordered(r.s, Follow(t, r.out))
  {
    if s.packets != [] {
      DeliverOrdered(s, t);
    }
  }

  /** Every fair step keeps the order. */
  lemma StepOrdered(s: State<int>, t: Trail, e: Event)
    requires Sized(s) && Ordered(s, t) && Fair(s, t, e)
    ensures Ordered(Step(s, e.op).s, TrailStep(s, t, e))
  {
    match e.op
    case Put(h, m, c) => PutRefinesSortedSet(s, t, e);
    case Get(next) => GetOrdered(s, t, next);
    case Drain => DrainOrdered(s, t);
    case Flush =>
  }

  // ---------------------------------------------------------------- runs

  function Ops(es: seq<Event>): (r: seq<Op<int>>)
    ensures |r| == |es|
  {
    seq(|es|, i requires 0 <= i < |es| => es[i].op)
  }

  function TrailOf(s: State<int>, base: int, es: seq<Event>): Trail
    requires Sized(s)
    decreases |es|
  {
    if es == [] then Trail(base, [])
    else TrailStep(Exec(s, Ops(Front(es))), TrailOf(s, base, Front(es)), Last(es))
  }

  predicate FairRun(s: State<int>, base: int, es: seq<Event>)
    requires Sized(s)
    decreases |es|
  {
    es == [] ||
    (FairRun(s, base, Front(es)) && Fair(Exec(s, Ops(Front(es))), TrailOf(s, base, Front(es)), Last(es)))
  }

  lemma RunSnoc(s: State<int>, base: int, es: seq<Event>, e: Event)
    requires Sized(s)
    ensures Exec(s, Ops(es + [e])) == Step(Exec(s, Ops(es)), e.op).s
    ensures TrailOf(s, base, es + [e]) == TrailStep(Exec(s, Ops(es)), TrailOf(s, base, es), e)
  {
    assert Front(es + [e]) == es;
    RunUnfold(s, base, es + [e]);
  }

  lemma RunUnfold(s: State<int>, base: int, es: seq<Event>)
    requires Sized(s) && es != []
    ensures var r, t := Exec(s, Ops(Front(es))), TrailOf(s, base, Front(es));
      Exec(s, Ops(es)) == Step(r, Last(es).op).s && TrailOf(s, base, es) == TrailStep(r, t, Last(es))
  {
    assert Front(Ops(es)) == Ops(Front(es));
  }

  lemma {:induction false} RunFromOrdered(s: State<int>, base: int, es: seq<Event>)
    requires Sized(s) && Ordered(s, Trail(base, [])) && FairRun(s, base, es)
    ensures Ordered(Exec(s, Ops(es)), TrailOf(s, base, es))
    decreases |es|
  {
    if es != [] {
      RunFromOrdered(s, base, Front(es));
      RunUnfold(s, base, es);
      StepOrdered(Exec(s, Ops(Front(es))), TrailOf(s, base, Front(es)), Last(es));
    }
  }

  /**
   * In every fair run of a new buffer the list is the strictly sorted set of
   * its extended numbers, all within half a cycle above the last delivery, and
   * the deliveries since the last flush are strictly increasing.
   */
  lemma RunOrdered(cfg: Config, base: int, es: seq<Event>)
    requires cfg.maxsz >= 1 && FairRun(Init(cfg), base, es)
    ensures Ordered(Exec(Init(cfg), Ops(es)), TrailOf(Init(cfg), base, es))
  {
    RunFromOrdered(Init(cfg), base, es);
  }

  lemma {:induction false} ClimbingIsStrict(us: seq<int>, i: nat, j: nat)
    requires Climbing(us) && i < j < |us|
    ensures us[i] < us[j]
    decreases j
  {
    if i < j - 1 {
      ClimbingIsStrict(us, i, j - 1);
    }
  }

  /** Deliveries of one epoch never repeat or go back, however far apart they are in the run. */
  lemma DeliveriesIncrease(cfg: Config, base: int, es: seq<Event>, i: nat, j: nat)
    requires cfg.maxsz >= 1 && FairRun(Init(cfg), base, es)
    requires i < j < |TrailOf(Init(cfg), base, es).out|
    ensures TrailOf(Init(cfg), base, es).out[i] < TrailOf(Init(cfg), base, es).out[j]
  {
    RunOrdered(cfg, base, es);
    ClimbingIsStrict(TrailOf(Init(cfg), base, es).out, i, j);
  }

  // ---------------------------------------------------------------- the sentinel

  /** A number from below the window is never a duplicate of a buffered one. */
  lemma BelowIsNoDuplicate(ps: seq<Packet<int>>, base: int, u: int)
    requires Sorted(ps, base) && base - HALF < u <= base
    ensures Locate(ps, W16(u), |ps|).At?
  {
    var r := Locate(ps, W16(u), |ps|);
    if r.Dup? {
      W16Absorb(ps[r.i].hdr.x, -u);
      W16Absorb(u, -u);
      assert false;
    }
  }

  /** With the filter off, a number from below the window breaks the order unless the skew adjustment drops it. */
  lemma EnterBelow(a: State<int>, cell: Cell, h: Header<int>, m: Option<Mem>, c: Clock, t: Trail)
    requires a.cfg.srate > 0 && Ordered(a, t) && W16(h.x) == h.seqno && t.base - HALF < h.x <= t.base
    ensures var r := Enter(a, cell, h, m, c);
      (r.err == Ok || r.err == ETIME) && (Ordered(r.s, t) <==> r.err == ETIME)
  {
    BelowIsNoDuplicate(a.packets, t.base, h.x);
    var r := Enter(a, cell, h, m, c);
    var i := Locate(a.packets, h.seqno, |a.packets|).i;
    if r.err == Ok {
      assert r.s.packets[i].hdr == h;
    }
  }

  lemma PutBelow(s: State<int>, t: Trail, h: Header<int>, m: Option<Mem>, c: Clock)
    requires Sized(s) && Ordered(s, t) && !Resyncs(s, Put(h, m, c)) && h.tsArrive != 0 && s.cfg.srate > 0
    requires W16(h.x) == h.seqno && t.base - HALF < h.x <= t.base && s.seqGet == 0
    ensures Ordered(PutStep(s, h, m, c).s, t) <==> PutStep(s, h, m, c).err == ETIME
  {
    var (a, cell) := Alloc(CountPut(s.(ssrc := h.ssrc)));
    EnterBelow(a, cell, h, m, c, t);
  }

  /**
   * Exactly when a put keeps the order: its number is above the last delivery,
   * or the filter is on, or the skew adjustment drops the packet.  While
   * `seq_get` reads 0 the filter is off, so the hypothesis of `Fair` on that
   * time cannot be dropped.
   */
  lemma PutKeepsOrderIff(s: State<int>, t: Trail, h: Header<int>, m: Option<Mem>, c: Clock)
    requires Sized(s) && Ordered(s, t) && !Resyncs(s, Put(h, m, c)) && h.tsArrive != 0 && s.cfg.srate > 0
    requires W16(h.x) == h.seqno && t.base - HALF < h.x <= t.base + HALF
    ensures Ordered(PutStep(s, h, m, c).s, t) <==>
            t.base < h.x || s.seqGet != 0 || JbufSkew.Adjustment(s, Put(h, m, c)) < 0
  {
    if t.base < h.x {
      PutRefinesSortedSet(s, t, Event(Put(h, m, c), 0));
    } else if s.seqGet != 0 {
      LateFilterExact(s.(ssrc := h.ssrc), t, h.x);
    } else {
      PutBelow(s, t, h, m, c);
      JbufSkew.PutSkew(s, Put(h, m, c));
    }
  }

  /** Without skew, an empty buffer stores what its filter lets pass. */
  lemma PutIntoEmpty(s: State<int>, h: Header<int>, m: Option<Mem>, c: Clock)
    requires Sized(s) && s.packets == [] && s.n == 0 && s.cfg.srate > 0
    requires h.tsArrive != 0 && (s.ssrc == 0 || s.ssrc == h.ssrc) && !TooLate(s, h.seqno)
    requires c.check == c.store == s.p.skewt
    ensures var r := PutStep(s, h, m, c).s;
      && |r.packets| == 1 && r.packets[0].hdr == h && r.n == 1
      && r.seqGet == s.seqGet && r.ssrc == h.ssrc && r.p.skewt == s.p.skewt
  {
    var (a, cell) := Alloc(CountPut(s.(ssrc := h.ssrc)));
    JbufSkew.AdmitWithoutSkew(a, cell, 0, h, m, c);
  }

  lemma DrainOnly(s: State<int>)
    requires |s.packets| == 1 && s.n == 1
    ensures var r := DrainStep(s);
      && r.out == Some(s.packets[0]) && r.s.packets == [] && r.s.n == 0
      && r.s.seqGet == s.packets[0].hdr.seqno && r.s.ssrc == s.ssrc && r.s.p == s.p
  {
  }

  /** An empty buffer of one source whose filter is off. */
  predicate Idle(s: State<int>, ssrc: u32) {
    && Sized(s) && s.packets == [] && s.n == 0 && s.cfg.srate > 0
    && (s.ssrc == 0 || s.ssrc == ssrc) && s.seqGet == 0 && s.p.skewt == 0
  }

  function ExamplePut(u: int): Event {
    Event(Put(Header(W16(u), 160, 1, 7, true, u), None, Clock(0, 0, 0)), 0)
  }

  /** With the filter off, whatever number is put comes out next. */
  lemma FilterOffDeliversAnything(s: State<int>, base: int, es: seq<Event>, u: int)
    requires Sized(s) && Idle(Exec(s, Ops(es)), 7)
    ensures var es' := es + [ExamplePut(u)] + [Event(Drain, 0)];
      && TrailOf(s, base, es') == Trail(u, TrailOf(s, base, es).out + [u])
      && (W16(u) == 0 ==> Idle(Exec(s, Ops(es')), 7))
  {
    var e := ExamplePut(u);
    RunSnoc(s, base, es, e);
    RunSnoc(s, base, es + [e], Event(Drain, 0));
    PutIntoEmpty(Exec(s, Ops(es)), e.op.h, e.op.m, e.op.c);
    DrainOnly(Exec(s, Ops(es + [e])));
  }

  /**
   * A run that goes back in time: once number 65536, which reads 0 on the wire,
   * is delivered, the earlier number 65530 is still accepted and delivered.
   */
  lemma SentinelGoesBack(cfg: Config, base: int)
    requires cfg.maxsz >= 1 && cfg.srate > 0
    ensures
      var es := [] + [ExamplePut(65536)] + [Event(Drain, 0)] + [ExamplePut(65530)] + [Event(Drain, 0)];
      TrailOf(Init(cfg), base, es).out == [65536, 65530]
  {
    FilterOffDeliversAnything(Init(cfg), base, [], 65536);
    FilterOffDeliversAnything(Init(cfg), base, [] + [ExamplePut(65536)] + [Event(Drain, 0)], 65530);
  }
}
