/**
 * Conservation in the jitter buffer: no packet structure, payload reference or
 * counted packet is ever lost or made up, in any run.
 */
module JbufConservation {
  import opened Words
  import opened JbufModel
  import opened JbufRun

  /**
   * What happened from outside: packets delivered and packets dropped for skew
   * since the last flush, and every payload reference handed out so far.
   */
  datatype Tally = Tally(delivered: nat, skewDrops: nat, handed: multiset<Mem>)

  function NewEpoch(t: Tally): Tally { t.(delivered := 0, skewDrops := 0) }

  function AfterPut(t: Tally, err: Err): Tally {
    if err == ETIME then t.(skewDrops := t.skewDrops + 1) else t
  }

  function AfterGet<X>(t: Tally, out: Option<Packet<X>>): Tally {
    if out.Some? then t.(delivered := t.delivered + 1, handed := AddRef(t.handed, out.value.mem)) else t
  }

  function TallyStep<X>(s: State<X>, t: Tally, op: Op<X>): Tally
    requires Sized(s)
  {
    var r := Step(s, op);
    AfterGet(AfterPut(if Flushes(s, op) then NewEpoch(t) else t, r.err), r.out)
  }

  function TallyOf<X>(s: State<X>, ops: seq<Op<X>>): Tally
    requires Sized(s)
    decreases |ops|
  {
    if ops == [] then Tally(0, 0, multiset{})
    else TallyStep(Exec(s, Front(ops)), TallyOf(s, Front(ops)), Last(ops))
  }

  /** How often structure `k` occurs in a list, and how often payload `k` is held there. */
  function Slots(cs: seq<Cell>, k: nat): nat {
    if cs == [] then 0 else (if cs[0].slot == k then 1 else 0) + Slots(cs[1..], k)
  }

  function Holds(cs: seq<Cell>, k: Mem): nat {
    if cs == [] then 0 else (if cs[0].mem == Some(k) then 1 else 0) + Holds(cs[1..], k)
  }

  function AsCells<X>(ps: seq<Packet<X>>): (r: seq<Cell>)
    ensures |r| == |ps|
  {
    seq(|ps|, i requires 0 <= i < |ps| => Cell(ps[i].slot, ps[i].mem))
  }

  lemma {:induction false} CellsConcat(a: seq<Cell>, b: seq<Cell>, k: nat)
    ensures Slots(a + b, k) == Slots(a, k) + Slots(b, k)
    ensures Holds(a + b, k) == Holds(a, k) + Holds(b, k)
  {
    if a == [] {
      assert a + b == b;
    } else {
      assert (a + b)[1..] == a[1..] + b;
      CellsConcat(a[1..], b, k);
    }
  }

  lemma CellsAppend(cs: seq<Cell>, c: Cell, k: nat)
    ensures Slots(cs + [c], k) == Slots(cs, k) + (if c.slot == k then 1 else 0)
    ensures Holds(cs + [c], k) == Holds(cs, k) + (if c.mem == Some(k) then 1 else 0)
  {
    CellsConcat(cs, [c], k);
  }

  /** A list with a packet inserted at position `i`. */
  lemma PacketsInsert<X>(ps: seq<Packet<X>>, i: nat, f: Packet<X>, k: nat)
    requires i <= |ps|
    ensures var r := AsCells(InsertAt(ps, i, f)); var cs := AsCells(ps);
      && Slots(r, k) == Slots(cs, k) + (if f.slot == k then 1 else 0)
      && Holds(r, k) == Holds(cs, k) + (if f.mem == Some(k) then 1 else 0)
  {
    var cs, c := AsCells(ps), Cell(f.slot, f.mem);
    assert AsCells(InsertAt(ps, i, f)) == (cs[..i] + [c]) + cs[i..];
    CellsConcat(cs[..i] + [c], cs[i..], k);
    CellsAppend(cs[..i], c, k);
    assert cs == cs[..i] + cs[i..];
    CellsConcat(cs[..i], cs[i..], k);
  }

  lemma PacketsTail<X>(ps: seq<Packet<X>>, k: nat)
    requires ps != []
    ensures var r := AsCells(ps[1..]); var cs := AsCells(ps);
      && Slots(cs, k) == Slots(r, k) + (if ps[0].slot == k then 1 else 0)
      && Holds(cs, k) == Holds(r, k) + (if ps[0].mem == Some(k) then 1 else 0)
  {
    assert AsCells(ps)[1..] == AsCells(ps[1..]);
  }

  lemma {:induction false} FreeAllKeeps<X>(refs: multiset<Mem>, ps: seq<Packet<X>>, k: nat)
    requires refs[k] >= Holds(AsCells(ps), k)
    ensures Slots(FreeAll(ps), k) == Slots(AsCells(ps), k)
    ensures DropAll(refs, ps)[k] == refs[k] - Holds(AsCells(ps), k)
  {
    if ps != [] {
      PacketsTail(ps, k);
      FreeAllKeeps(DropRef(refs, ps[0].mem), ps[1..], k);
      assert FreeAll(ps)[1..] == FreeAll(ps[1..]);
    }
  }

  /** Each structure numbered below maxsz is in exactly one of the two lists, once. */
  predicate Whole<X>(s: State<X>, k: nat) {
    Slots(s.pool, k) + Slots(AsCells(s.packets), k) == if k < s.cfg.maxsz then 1 else 0
  }

  /** Each payload is referenced once per buffered packet that carries it and once per hand-out. */
  predicate Referenced<X>(s: State<X>, handed: multiset<Mem>, k: Mem) {
    s.refs[k] == Holds(AsCells(s.packets), k) + handed[k]
  }

  /** The counters agree with each other and with the list. */
  predicate Counted<X>(s: State<X>, t: Tally) {
    && s.n == s.stat.cPackets == |s.packets|
    && s.stat.nPut == W32(s.n + t.delivered + s.stat.nOverflow + s.stat.nDups + t.skewDrops)
  }

  predicate PoolEmptyHanded<X>(s: State<X>) {
    forall c :: c in s.pool ==> c.mem == None
  }

  /** What every reachable state keeps, said of one structure or payload `k`. */
  predicate Balanced<X>(s: State<X>, t: Tally, k: nat) {
    Sized(s) && Counted(s, t) && PoolEmptyHanded(s) && Whole(s, k) && Referenced(s, t.handed, k)
  }

  lemma {:induction false} FreshSlots(n: nat, k: nat)
    ensures Slots(seq(n, (i: nat) => Cell(i, None)), k) == if k < n then 1 else 0
  {
    if n > 0 {
      FreshSlots(n - 1, k);
      CellsAppend(seq(n - 1, (i: nat) => Cell(i, None)), Cell(n - 1, None), k);
      assert seq(n, (i: nat) => Cell(i, None)) == seq(n - 1, (i: nat) => Cell(i, None)) + [Cell(n - 1, None)];
    }
  }

  lemma InitBalanced<X>(cfg: Config, k: nat)
    requires cfg.maxsz >= 1
    ensures Balanced(Init<X>(cfg), Tally(0, 0, multiset{}), k)
  {
    FreshSlots(cfg.maxsz, k);
  }

  lemma FlushBalanced<X>(s: State<X>, t: Tally, k: nat)
    requires Balanced(s, t, k)
    ensures Balanced(FlushStep(s), NewEpoch(t), k)
  {
    FreeAllSize(s.packets);
    FreeAllKeeps(s.refs, s.packets, k);
    CellsConcat(s.pool, FreeAll(s.packets), k);
  }

  lemma DeliverCounted<X>(s: State<X>, t: Tally)
    requires Counted(s, t) && s.packets != []
    ensures Counted(Deliver(s), AfterGet(t, Some(s.packets[0])))
  {
    W32Residue(s.n - 1, s.n - 1, 0);
  }

  /** Delivery hands exactly one reference to the caller. */
  lemma DeliverBalanced<X>(s: State<X>, t: Tally, k: nat)
    requires Balanced(s, t, k) && s.packets != []
    ensures Balanced(Deliver(s), AfterGet(t, Some(s.packets[0])), k)
  {
    var f, r := s.packets[0], Deliver(s);
    DeliverShape(s);
    DeliverCounted(s, t);
    PacketsTail(s.packets, k);
    CellsAppend(s.pool, Cell(f.slot, None), k);
  }

  lemma DeliverShape<X>(s: State<X>)
    requires s.packets != []
    ensures var r := Deliver(s);
      && r.packets == s.packets[1..] && r.pool == s.pool + [Cell(s.packets[0].slot, None)]
      && r.refs == s.refs
  {
    var m := s.packets[0].mem;
    assert DropRef(AddRef(s.refs, m), m) == s.refs;
  }

  /** Between allocation and insertion one structure is in neither list. */
  predicate Open<X>(s: State<X>, cell: Cell, t: Tally, k: nat) {
    && |s.pool| + |s.packets| + 1 == s.cfg.maxsz
    && cell.mem == None && PoolEmptyHanded(s)
    && s.n == s.stat.cPackets == |s.packets| + 1
    && s.stat.nPut == W32(s.n + t.delivered + s.stat.nOverflow + s.stat.nDups + t.skewDrops)
    && Referenced(s, t.handed, k)
    && (Slots(s.pool, k) + Slots(AsCells(s.packets), k) + (if cell.slot == k then 1 else 0)
        == if k < s.cfg.maxsz then 1 else 0)
  }

  lemma AllocOpens<X>(s: State<X>, t: Tally, k: nat)
    requires Balanced(s, t, k)
    ensures var (a, cell) := Alloc(CountPut(s)); Open(a, cell, t, k)
  {
    var sum := s.n + t.delivered + s.stat.nOverflow + s.stat.nDups + t.skewDrops;
    W32Absorb(sum, 1);
    if s.pool == [] {
      PacketsTail(s.packets, k);
      W32Absorb(s.stat.nOverflow + 1, sum - s.stat.nOverflow);
    }
  }

  /** A net admission, whatever the timing, closes the books again. */
  lemma AdmittedBalanced<X>(s: State<X>, cell: Cell, i: nat, h: Header<X>, m: Option<Mem>, playout: u32,
                            r: State<X>, err: Err, t: Tally, k: nat)
    requires Open(s, cell, t, k) && i <= |s.packets|
    requires Admitted(s, cell, i, h, m, playout, r, err)
    ensures Balanced(r, AfterPut(t, err), k)
  {
    if err == Ok {
      PacketsInsert(s.packets, i, Packet(cell.slot, h, playout, m), k);
    } else {
      CellsAppend(s.pool, Cell(cell.slot, None), k);
    }
  }

  lemma GiveBackBalanced<X>(a: State<X>, cell: Cell, t: Tally, k: nat)
    requires Open(a, cell, t, k)
    ensures Balanced(GiveBack(a, cell), t, k)
  {
    CellsAppend(a.pool, Cell(cell.slot, None), k);
    W32Absorb(a.stat.nDups + 1, a.n - 1 + t.delivered + a.stat.nOverflow + t.skewDrops);
  }

  lemma EnteredBalanced<X>(a: State<X>, cell: Cell, h: Header<X>, m: Option<Mem>, playout: u32,
                           r: State<X>, err: Err, t: Tally, k: nat)
    requires Open(a, cell, t, k) && Entered(a, cell, h, m, playout, r, err)
    ensures Balanced(r, AfterPut(t, err), k)
  {
    match Locate(a.packets, h.seqno, |a.packets|)
    case Dup(_) => GiveBackBalanced(a, cell, t, k);
    case At(i) => AdmittedBalanced(Announce(a, i, h.seqno).0, cell, i, h, m, playout, r, err, t, k);
  }

  lemma AcceptBalanced<X>(s: State<X>, h: Header<X>, m: Option<Mem>, c: Clock, t: Tally, k: nat)
    requires Balanced(s, t, k) && s.cfg.srate > 0
    ensures var r := Accept(s, h, m, c); Balanced(r.s, AfterPut(t, r.err), k)
  {
    AllocOpens(s, t, k);
    var (a, cell) := Alloc(CountPut(s));
    var r := Enter(a, cell, h, m, c);
    EnteredBalanced(a, cell, h, m, EntryPlayout(a, h), r.s, r.err, t, k);
  }

  lemma LockedBalanced<X>(s: State<X>, h: Header<X>, m: Option<Mem>, c: Clock, t: Tally, k: nat)
    requires Balanced(s, t, k)
    ensures var r := PutLocked(s, h, m, c); Balanced(r.s, AfterPut(t, r.err), k)
  {
    var s1 := s.(ssrc := h.ssrc);
    if s.cfg.srate != 0 && !TooLate(s1, h.seqno) {
      AcceptBalanced(s1, h, m, c, t, k);
    }
  }

  lemma PutBalanced<X>(s: State<X>, h: Header<X>, m: Option<Mem>, c: Clock, t: Tally, k: nat)
    requires Balanced(s, t, k)
    ensures var r := PutStep(s, h, m, c);
      Balanced(r.s, AfterPut(if Resyncs(s, Put(h, m, c)) then NewEpoch(t) else t, r.err), k)
  {
    if h.tsArrive != 0 {
      FlushBalanced(s, t, k);
      LockedBalanced(Resynced(s, h), h, m, c, if Resyncs(s, Put(h, m, c)) then NewEpoch(t) else t, k);
    }
  }

  lemma GetBalanced<X>(s: State<X>, next: u32, t: Tally, k: nat)
    requires Balanced(s, t, k)
    ensures var r := GetStep(s, next); Balanced(r.s, AfterGet(t, r.out), k)
  {
    if s.packets != [] {
      DeliverBalanced(CountLost(CountGet(s), LostBefore(s.seqGet, s.packets[0].hdr.seqno)), t, k);
    }
  }

  /** Every step keeps the balance. */
  lemma StepBalanced<X>(s: State<X>, t: Tally, op: Op<X>, k: nat)
    requires Balanced(s, t, k)
    ensures Balanced(Step(s, op).s, TallyStep(s, t, op), k)
  {
    match op
    case Put(h, m, c) => PutBalanced(s, h, m, c, t, k);
    case Get(next) => GetBalanced(s, next, t, k);
    case Drain =>
      if s.packets != [] {
        DeliverBalanced(s, t, k);
      }
    case Flush => FlushBalanced(s, t, k);
  }

  /** Conservation: every run of a new buffer ends balanced, for every structure and payload. */
  lemma {:induction false} RunBalanced<X>(cfg: Config, ops: seq<Op<X>>, k: nat)
    requires cfg.maxsz >= 1
    ensures Balanced(Exec(Init(cfg), ops), TallyOf(Init(cfg), ops), k)
    decreases |ops|
  {
    if ops == [] {
      InitBalanced<X>(cfg, k);
    } else {
      RunBalanced(cfg, Front(ops), k);
      StepBalanced(Exec(Init(cfg), Front(ops)), TallyOf(Init(cfg), Front(ops)), Last(ops), k);
    }
  }
}
