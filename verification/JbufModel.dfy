/**
 * The jitter buffer of src/jbuf.c as a transition system on values: what each
 * locked section does to the state.  The class in JitterBuffer.dfy carries the
 * same operations out step by step and is proved equal to these functions; the
 * Jbuf* modules prove what every run of them keeps.
 */
module JbufModel {
  import opened Words

  const LATE_THRESHOLD := 3
  const MAX_DRIFT := 20
  const DRIFT_WINDOW := 10000
  const INT_MIN := -0x8000_0000

  /** The identity of a reference-counted payload object; a NULL payload is None. */
  type Mem = nat

  /**
   * An RTP header.  `extOk` says that its extension, if it has one, can be
   * decoded, which only the receiver looks at.  `x` stands for all other fields
   * that are copied without being read; since it has an arbitrary type, nothing
   * here can depend on it.
   */
  datatype Header<X> = Header(seqno: u16, ts: u32, tsArrive: u64, ssrc: u32, extOk: bool, x: X)

  /** A free packet structure of the pool; `slot` is the identity of the structure. */
  datatype Cell = Cell(slot: nat, mem: Option<Mem>)

  /** A buffered packet structure. */
  datatype Packet<X> = Packet(slot: nat, hdr: Header<X>, playout: u32, mem: Option<Mem>)

  datatype JbufType = Off | Fixed | Adaptive

  datatype Config = Config(mind: u32, maxd: u32, maxsz: u32, srate: u32, jbtype: JbufType, gnack: bool)

  datatype Playout = Playout(
    offset: u32, lastTransit: u32, jitter: u32, jitterOffset: u32,
    delayEstimate: u32, activeDelay: u32, latePkts: u16, skewt: u64, maxSkewMs: s32)

  datatype Stats = Stats(
    nPut: u32, nGet: u32, nOos: u32, nDups: u32, nLate: u32, nLateLost: u32, nLost: u32,
    nOverflow: u32, nFlush: u32, nGnacks: u32, cDelay: u32, cPackets: u32, cJitter: u32, cSkew: s32)

  const ZERO_PLAYOUT := Playout(0, 0, 0, 0, 0, 0, 0, 0, 0)
  const ZERO_STATS := Stats(0, 0, 0, 0, 0, 0, 0, 0, 0, 0, 0, 0, 0, 0)

  /**
   * The state of a jitter buffer.  `refs` counts the references taken through
   * the buffer and not yet given back: one per buffered payload, and one per
   * payload handed to a caller that has not released it.
   */
  datatype State<X> = State(
    cfg: Config, pool: seq<Cell>, packets: seq<Packet<X>>, n: u32, seqPut: u16, seqGet: u16,
    ssrc: u32, p: Playout, running: bool, stat: Stats, refs: multiset<Mem>)

  /** The clock readings of one put: `tmr_jiffies` when checked and when stored, and `next_play_h`. */
  datatype Clock = Clock(check: u64, store: u64, next: u32)

  datatype Err = Ok | EINVAL | ETIMEDOUT | EALREADY | ETIME | ENOENT | EAGAIN

  /** A Generic NACK: the first missing number and the bitmask of the 16 after it. */
  datatype Gnack = Gnack(pid: u16, blp: u16)

  /** Reference counting. */
  function AddRef(refs: multiset<Mem>, m: Option<Mem>): multiset<Mem> {
    if m.Some? then refs + multiset{m.value} else refs
  }

  function DropRef(refs: multiset<Mem>, m: Option<Mem>): multiset<Mem> {
    if m.Some? then refs - multiset{m.value} else refs
  }

  /** The packet pool has at least one structure (`maxsz >= 1`) and none is lost. */
  predicate Sized<X>(s: State<X>) {
    |s.pool| + |s.packets| == s.cfg.maxsz && s.cfg.maxsz >= 1
  }

  // ---------------------------------------------------------------- timing

  /** The offset of the receiver clock over the sender clock, `ts_arrive - ts`. */
  function Transit<X>(h: Header<X>): u32 { W32(h.tsArrive - h.ts) }

  function DelayMs(delay: s32, srate: u32): s32
    requires srate > 0
  {
    S32(TruncDiv(delay * 1000, srate))
  }

  /** `offset_min`: the smaller of two offsets by 32-bit serial order. */
  function OffsetMin(a: u32, b: u32): u32 {
    if W32(a - b) >= 0x8000_0000 then a else b
  }

  /** The absolute 32-bit deviation between two transits (INT_MIN has no absolute value). */
  function Deviation(transit: u32, last: u32): s32 {
    var d: int := S32(transit - last);
    if d < 0 then S32(-d) else d
  }

  /** The smoothed accumulator: 16 times the RFC 3550 jitter. */
  function JitterUpdate(jitter: u32, d: s32): u32 {
    W32(jitter + d - W32(jitter + 8) / 16)
  }

  /** The update of `adjust_due_to_jitter`; `counted` says that the deviation is large enough to count. */
  function JitterCore(p: Playout, transit: u32, counted: bool): (r: Playout)
    ensures r == p.(lastTransit := transit, jitter := r.jitter, jitterOffset := r.jitterOffset, latePkts := r.latePkts)
  {
    if p.lastTransit == 0 then p.(lastTransit := transit) else
    var acc := if counted then JitterUpdate(p.jitter, Deviation(transit, p.lastTransit)) else p.jitter;
    var p1 := p.(jitter := acc, lastTransit := transit);
    if p.latePkts >= LATE_THRESHOLD then p1.(latePkts := 0, jitterOffset := W32(2 * (acc / 16))) else p1
  }

  /** `adjust_due_to_jitter`: the new playout values, the jitter offset and the new `c_jitter`. */
  function JitterStep(p: Playout, transit: u32, mind: u32, srate: u32, cJitter: u32): (Playout, u32, u32)
    requires srate > 0
  {
    var counted := W32(DelayMs(Deviation(transit, p.lastTransit), srate)) > mind / 2;
    var p1 := JitterCore(p, transit, counted);
    if p.lastTransit == 0 then (p1, 0, cJitter)
    else (p1, p1.jitterOffset, W32(DelayMs(S32(p1.jitter / 16), srate)))
  }

  function Estimate(estimate: u32, delay: u32): u32 { (31 * estimate + delay) / 32 }

  /** The update of `adjust_due_to_skew` and the adjustment, when the skew against the new estimate is `skewMs`. */
  function SkewCore(p: Playout, delay: u32, skewMs: s32, c: Clock): (r: (Playout, int))
    ensures r.0 == p.(delayEstimate := r.0.delayEstimate, activeDelay := r.0.activeDelay,
                      skewt := r.0.skewt, maxSkewMs := r.0.maxSkewMs)
  {
    if p.activeDelay == 0 then
      (p.(activeDelay := delay, delayEstimate := delay, maxSkewMs := INT_MIN, skewt := c.store), 0)
    else
      var estimate := Estimate(p.delayEstimate, delay);
      var maxSkew := if skewMs > p.maxSkewMs then skewMs else p.maxSkewMs;
      if W64(c.check - p.skewt) <= DRIFT_WINDOW then
        (p.(delayEstimate := estimate, maxSkewMs := maxSkew), 0)
      else
        var p1 := p.(delayEstimate := estimate, maxSkewMs := INT_MIN, skewt := c.store);
        if maxSkew > MAX_DRIFT then (p1.(activeDelay := estimate), -MAX_DRIFT)
        else if maxSkew < -MAX_DRIFT then (p1.(activeDelay := estimate), MAX_DRIFT)
        else (p1, 0)
  }

  /** `adjust_due_to_skew`: the new playout values, the adjustment and the new `c_skew`. */
  function SkewStep(p: Playout, delay: u32, srate: u32, c: Clock, cSkew: s32): (Playout, int, s32)
    requires srate > 0
  {
    var skewMs := DelayMs(S32(p.activeDelay - Estimate(p.delayEstimate, delay)), srate);
    var (p1, adjust) := SkewCore(p, delay, skewMs, c);
    (p1, adjust, if p.activeDelay == 0 then cSkew else skewMs)
  }

  function MinLat(cfg: Config): u32 { W32(cfg.srate / 1000 * cfg.mind) }
  function MaxLat(cfg: Config): u32 { W32(cfg.srate / 1000 * cfg.maxd) }

  /** The clamp of `calc_playout_time`. */
  function Clamp(x: u32, lo: u32, hi: u32): u32 {
    if x < lo then lo else if x > hi then hi else x
  }

  /** The minimum offset after a packet with offset `o`; 0 means that none is set. */
  function OffsetStep(offset: u32, o: u32): u32 {
    if offset == 0 then o else OffsetMin(offset, o)
  }

  /** The jitter part of `calc_playout_time`: only an adaptive buffer has one. */
  function AdaptStep(cfg: Config, p: Playout, transit: u32, cJitter: u32): (Playout, u32, u32)
    requires cfg.srate > 0
  {
    if cfg.jbtype.Adaptive? then JitterStep(p, transit, cfg.mind, cfg.srate, cJitter) else (p, 0, cJitter)
  }

  /** `calc_playout_time` for a header that will stand after `prev` in the list. */
  function PlayoutStep<X>(cfg: Config, p: Playout, st: Stats, prev: Option<Packet<X>>, h: Header<X>)
    : (r: (Playout, Stats, u32))
    requires cfg.srate > 0
    ensures r.1 == st.(cDelay := r.1.cDelay, cJitter := r.1.cJitter)
  {
    if prev.Some? && prev.value.hdr.ts == h.ts then (p, st, prev.value.playout) else
    var offset := OffsetStep(p.offset, Transit(h));
    var (p1, off, cJitter) := AdaptStep(cfg, p.(offset := offset), Transit(h), st.cJitter);
    var lat := Clamp(off, MinLat(cfg), MaxLat(cfg));
    (p1, st.(cJitter := cJitter, cDelay := W32(DelayMs(S32(lat), cfg.srate))), W32(W32(h.ts + offset) + lat))
  }

  // ---------------------------------------------------------------- pool

  /** `packet_alloc`: a free structure, or the one of the oldest buffered packet. */
  function Alloc<X>(s: State<X>): (r: (State<X>, Cell))
    requires Sized(s)
    ensures |r.0.pool| + |r.0.packets| + 1 == s.cfg.maxsz
  {
    if s.pool != [] then
      (s.(pool := s.pool[1..], n := W32(s.n + 1), stat := s.stat.(cPackets := W32(s.stat.cPackets + 1))), s.pool[0])
    else
      var f := s.packets[0];
      (s.(packets := s.packets[1..], stat := s.stat.(nOverflow := W32(s.stat.nOverflow + 1)),
          refs := DropRef(s.refs, f.mem)),
       Cell(f.slot, None))
  }

  /** `packet_deref` of the buffered packet at position `i`. */
  function Deref<X>(s: State<X>, i: nat): State<X>
    requires i < |s.packets|
  {
    var f := s.packets[i];
    s.(packets := s.packets[..i] + s.packets[i+1..], pool := s.pool + [Cell(f.slot, None)],
       n := W32(s.n - 1), stat := s.stat.(cPackets := W32(s.stat.cPackets - 1)), refs := DropRef(s.refs, f.mem))
  }

  // ---------------------------------------------------------------- put

  /** Where a number goes in the list: before position `i`, or nowhere since position `i` holds it. */
  datatype Place = At(i: nat) | Dup(i: nat)

  /** The backward search of `jbuf_put` over the first `k` packets. */
  function Locate<X>(ps: seq<Packet<X>>, seqno: u16, k: nat): (r: Place)
    requires k <= |ps|
    ensures r.At? ==> r.i <= k
    ensures r.Dup? ==> r.i < k && ps[r.i].hdr.seqno == seqno
    decreases k
  {
    if k == 0 then At(0)
    else if SeqLess(ps[k-1].hdr.seqno, seqno) then At(k)
    else if ps[k-1].hdr.seqno == seqno then Dup(k-1)
    else Locate(ps, seqno, k-1)
  }

  function InsertAt<T>(s: seq<T>, i: nat, x: T): (r: seq<T>)
    requires i <= |s|
    ensures |r| == |s| + 1 && r[i] == x
  {
    s[..i] + [x] + s[i..]
  }

  function Pow2(k: nat): (r: nat)
    ensures r >= 1
  {
    if k == 0 then 1 else 2 * Pow2(k - 1)
  }

  /** `send_gnack`: `blpPkts` numbers are missing after `pid`. */
  function MakeGnack(pid: u16, blpPkts: int): Gnack {
    var k := if blpPkts > 16 then 16 else blpPkts;
    Gnack(pid, if k > 0 then W16(Pow2(k) - 1) else 0)
  }

  /** The NACK for a packet appended behind number `last`, if one is due. */
  function GapNack(gnack: bool, last: u16, seqno: u16): Option<Gnack> {
    var diff := S16(seqno - last);
    if gnack && diff > 1 then Some(MakeGnack(W16(last + 1), diff - 2)) else None
  }

  datatype PutResult<X> = PutResult(s: State<X>, err: Err, gnack: Option<Gnack>)

  predicate TooLate<X>(s: State<X>, seqno: u16) {
    s.running && s.seqGet != 0 && SeqLess(seqno, W16(s.seqGet + 1))
  }

  /** The packet that precedes position `i`. */
  function Before<X>(ps: seq<Packet<X>>, i: nat): Option<Packet<X>>
    requires i <= |ps|
  {
    if i > 0 then Some(ps[i-1]) else None
  }

  /** The net effect of admitting a packet at `i`, timing aside: it is stored, or nothing but its cell moves. */
  ghost predicate Admitted<X>(s: State<X>, cell: Cell, i: nat, h: Header<X>, m: Option<Mem>, playout: u32,
                              r: State<X>, err: Err)
    requires i <= |s.packets|
  {
    && r.cfg == s.cfg && r.running && r.seqPut == h.seqno && r.seqGet == s.seqGet && r.ssrc == s.ssrc
    && r.stat.nPut == s.stat.nPut && r.stat.nOverflow == s.stat.nOverflow && r.stat.nDups == s.stat.nDups
    && (err == Ok ==>
         && r.packets == InsertAt(s.packets, i, Packet(cell.slot, h, playout, m)) && r.pool == s.pool
         && r.n == s.n && r.stat.cPackets == s.stat.cPackets && r.refs == AddRef(s.refs, m))
    && (err != Ok ==>
         && err == ETIME && r.packets == s.packets && r.pool == s.pool + [Cell(cell.slot, None)]
         && r.n == W32(s.n - 1) && r.stat.cPackets == W32(s.stat.cPackets - 1) && r.refs == s.refs)
  }

  /** The end of `jbuf_put`: what a skew adjustment or a missed playout time does to the packet at `i`. */
  function Settle<X>(s: State<X>, i: nat, adjust: int, late: bool): (State<X>, Err)
    requires i < |s.packets|
  {
    if adjust > 0 then (s.(p := s.p.(offset := 0)), Ok)
    else if adjust < 0 then (Deref(s.(p := s.p.(offset := 0)), i), ETIME)
    else if late then
      (s.(p := s.p.(latePkts := W16(s.p.latePkts + 1)), stat := s.stat.(nLate := W32(s.stat.nLate + 1))), Ok)
    else (s, Ok)
  }

  /** The structure `cell`, filled in and linked at position `i`. */
  function Fill<X>(s: State<X>, cell: Cell, i: nat, h: Header<X>, m: Option<Mem>, playout: u32): State<X>
    requires i <= |s.packets|
  {
    s.(running := true, seqPut := h.seqno, refs := AddRef(s.refs, m),
       packets := InsertAt(s.packets, i, Packet(cell.slot, h, playout, m)))
  }

  lemma SettleEffect<X>(s: State<X>, cell: Cell, i: nat, h: Header<X>, m: Option<Mem>, playout: u32,
                        p: Playout, cDelay: u32, cJitter: u32, cSkew: s32, adjust: int, late: bool)
    requires i <= |s.packets|
    ensures
      var st := s.stat.(cDelay := cDelay, cJitter := cJitter, cSkew := cSkew);
      var (r, err) := Settle(Fill(s, cell, i, h, m, playout).(p := p, stat := st), i, adjust, late);
      Admitted(s, cell, i, h, m, playout, r, err)
  {
    var ps := InsertAt(s.packets, i, Packet(cell.slot, h, playout, m));
    assert ps[..i] + ps[i+1..] == s.packets;
    assert DropRef(AddRef(s.refs, m), m) == s.refs;
  }

  /** The part of `jbuf_put` after `success:`; `cell` goes to position `i`. */
  function Admit<X>(s: State<X>, cell: Cell, i: nat, h: Header<X>, m: Option<Mem>, c: Clock): (r: (State<X>, Err))
    requires i <= |s.packets| && s.cfg.srate > 0
    ensures Admitted(s, cell, i, h, m, PlayoutStep(s.cfg, s.p, s.stat, Before(s.packets, i), h).2, r.0, r.1)
  {
    var (p1, st1, playout) := PlayoutStep(s.cfg, s.p, s.stat, Before(s.packets, i), h);
    var (p2, adjust, cSkew) := SkewStep(p1, Transit(h), s.cfg.srate, c, st1.cSkew);
    var late := playout < c.next;
    SettleEffect(s, cell, i, h, m, playout, p2, st1.cDelay, st1.cJitter, cSkew, adjust, late);
    Settle(Fill(s, cell, i, h, m, playout).(p := p2, stat := st1.(cSkew := cSkew)), i, adjust, late)
  }

  /** Before admission to position `i`: an insertion is counted, a gap behind the tail is reported. */
  function Announce<X>(a: State<X>, i: nat, seqno: u16): (r: (State<X>, Option<Gnack>))
    requires i <= |a.packets|
    ensures r.0 == a.(stat := a.stat.(nOos := r.0.stat.nOos, nGnacks := r.0.stat.nGnacks))
  {
    if i < |a.packets| then (a.(stat := a.stat.(nOos := W32(a.stat.nOos + 1))), None)
    else if i == 0 then (a, None)
    else
      var nack := GapNack(a.cfg.gnack, a.packets[i-1].hdr.seqno, seqno);
      (if nack.Some? then a.(stat := a.stat.(nGnacks := W32(a.stat.nGnacks + 1))) else a, nack)
  }

  /** A duplicate: the structure taken for it goes back to the pool. */
  function GiveBack<X>(a: State<X>, cell: Cell): State<X> {
    a.(pool := a.pool + [Cell(cell.slot, None)], n := W32(a.n - 1), refs := DropRef(a.refs, cell.mem),
       stat := a.stat.(nDups := W32(a.stat.nDups + 1), cPackets := W32(a.stat.cPackets - 1)))
  }

  /** The net effect of the part of `jbuf_put` after allocation, timing aside. */
  ghost predicate Entered<X>(a: State<X>, cell: Cell, h: Header<X>, m: Option<Mem>, playout: u32,
                             r: State<X>, err: Err) {
    match Locate(a.packets, h.seqno, |a.packets|)
    case Dup(_) => r == GiveBack(a, cell) && err == EALREADY
    case At(i) => Admitted(Announce(a, i, h.seqno).0, cell, i, h, m, playout, r, err)
  }

  /** The playout time that a packet entering the buffer gets. */
  function EntryPlayout<X>(a: State<X>, h: Header<X>): u32
    requires a.cfg.srate > 0
  {
    var b := Announce(a, Locate(a.packets, h.seqno, |a.packets|).i, h.seqno).0;
    PlayoutStep(a.cfg, a.p, b.stat, Before(a.packets, Locate(a.packets, h.seqno, |a.packets|).i), h).2
  }

  /** The part of `jbuf_put` after allocation. */
  function Enter<X>(a: State<X>, cell: Cell, h: Header<X>, m: Option<Mem>, c: Clock): (r: PutResult<X>)
    requires a.cfg.srate > 0
    ensures Entered(a, cell, h, m, EntryPlayout(a, h), r.s, r.err)
    ensures r.s.cfg == a.cfg && |r.s.pool| + |r.s.packets| == |a.pool| + |a.packets| + 1
  {
    match Locate(a.packets, h.seqno, |a.packets|)
    case Dup(_) => PutResult(GiveBack(a, cell), EALREADY, None)
    case At(i) =>
      var (b, nack) := Announce(a, i, h.seqno);
      var (r, err) := Admit(b, cell, i, h, m, c);
      PutResult(r, err, nack)
  }

  function CountPut<X>(s: State<X>): State<X> {
    s.(stat := s.stat.(nPut := W32(s.stat.nPut + 1)))
  }

  /** The part of `jbuf_put` after the late check. */
  function Accept<X>(s: State<X>, h: Header<X>, m: Option<Mem>, c: Clock): (r: PutResult<X>)
    requires Sized(s) && s.cfg.srate > 0
    ensures Sized(r.s) && r.s.cfg == s.cfg
  {
    var (a, cell) := Alloc(CountPut(s));
    Enter(a, cell, h, m, c)
  }

  /** A change of synchronization source empties the buffer. */
  function Resynced<X>(s: State<X>, h: Header<X>): State<X> {
    if s.ssrc != 0 && s.ssrc != h.ssrc then FlushStep(s) else s
  }

  /** A packet that comes too late is only counted. */
  function Reject<X>(s: State<X>): State<X> {
    s.(stat := s.stat.(nLateLost := W32(s.stat.nLateLost + 1)), p := s.p.(latePkts := W16(s.p.latePkts + 1)))
  }

  /** `jbuf_put` from its locked section on. */
  function PutLocked<X>(s: State<X>, h: Header<X>, m: Option<Mem>, c: Clock): (r: PutResult<X>)
    requires Sized(s)
    ensures Sized(r.s) && r.s.cfg == s.cfg
  {
    if s.cfg.srate == 0 then PutResult(s, EINVAL, None) else
    var s1 := s.(ssrc := h.ssrc);
    if TooLate(s1, h.seqno) then PutResult(Reject(s1), ETIMEDOUT, None) else Accept(s1, h, m, c)
  }

  /** `jbuf_put`. */
  function PutStep<X>(s: State<X>, h: Header<X>, m: Option<Mem>, c: Clock): (r: PutResult<X>)
    requires Sized(s)
    ensures Sized(r.s) && r.s.cfg == s.cfg
  {
    if h.tsArrive == 0 then PutResult(s, EINVAL, None) else
    FreeAllSize(s.packets);
    PutLocked(Resynced(s, h), h, m, c)
  }

  // ---------------------------------------------------------------- get, drain, flush

  datatype GetResult<X> = GetResult(s: State<X>, err: Err, out: Option<Packet<X>>)

  /** Packets counted as lost when `seqno` is delivered after `last` (0: nothing delivered yet). */
  function LostBefore(last: u16, seqno: u16): nat {
    var diff := S16(seqno - last);
    if last == 0 || SeqLess(seqno, last) || diff <= 1 then 0 else diff - 1
  }

  /** Delivery of the head packet: the caller gets a reference, the buffer gives its own back. */
  function Deliver<X>(s: State<X>): State<X>
    requires s.packets != []
  {
    var f := s.packets[0];
    Deref(s.(seqGet := f.hdr.seqno, refs := AddRef(s.refs, f.mem)), 0)
  }

  function CountGet<X>(s: State<X>): State<X> {
    s.(stat := s.stat.(nGet := W32(s.stat.nGet + 1)))
  }

  function CountLost<X>(s: State<X>, lost: nat): State<X> {
    s.(stat := s.stat.(nLost := W32(s.stat.nLost + lost)))
  }

  /** `jbuf_get` at playout clock `next`. */
  function GetStep<X>(s: State<X>, next: u32): GetResult<X> {
    if s.packets == [] || s.packets[0].playout > next then GetResult(CountGet(s), ENOENT, None) else
    var f := s.packets[0];
    GetResult(Deliver(CountLost(CountGet(s), LostBefore(s.seqGet, f.hdr.seqno))),
              if |s.packets| > 1 && s.packets[1].playout <= next then EAGAIN else Ok,
              Some(f))
  }

  /** `jbuf_drain`. */
  function DrainStep<X>(s: State<X>): GetResult<X> {
    if s.n <= 0 || s.packets == [] then GetResult(s, ENOENT, None)
    else GetResult(Deliver(s), Ok, Some(s.packets[0]))
  }

  function FreeAll<X>(ps: seq<Packet<X>>): seq<Cell> {
    if ps == [] then [] else [Cell(ps[0].slot, None)] + FreeAll(ps[1..])
  }

  function DropAll<X>(refs: multiset<Mem>, ps: seq<Packet<X>>): multiset<Mem> {
    if ps == [] then refs else DropAll(DropRef(refs, ps[0].mem), ps[1..])
  }

  lemma FreeAllSize<X>(ps: seq<Packet<X>>)
    ensures |FreeAll(ps)| == |ps|
    ensures forall c :: c in FreeAll(ps) ==> c.mem == None
  {
  }

  /** `jbuf_flush`. */
  function FlushStep<X>(s: State<X>): State<X> {
    s.(pool := s.pool + FreeAll(s.packets), packets := [], refs := DropAll(s.refs, s.packets),
       n := 0, running := false, seqGet := 0, p := ZERO_PLAYOUT,
       stat := ZERO_STATS.(nFlush := W32(s.stat.nFlush + 1)))
  }

  /** `jbuf_next_play` at playout clock `current`: a delay in ms, or a negative error. */
  datatype NextPlay = Wait(ms: s32) | NoPacket | OutOfOrder

  function NextPlayOf<X>(s: State<X>, current: u32): NextPlay
    requires s.packets != [] ==> s.cfg.srate > 0
  {
    if s.packets == [] then NoPacket
    else if s.packets[0].hdr.seqno != W16(s.seqGet + 1) then OutOfOrder
    else if s.packets[0].playout <= current then Wait(0)
    else
      var ms := DelayMs(S32(s.packets[0].playout - current), s.cfg.srate);
      Wait(if ms == 0 then 1 else ms)
  }
}
