/**
 * Runs of the jitter buffer: every interleaving of put, get, drain and flush.  A
 * put that finds a new source flushes and stores in two locked sections, which
 * are one step here.
 */
module JbufRun {
  import opened Words
  import opened JbufModel

  datatype Op<X> =
    | Put(h: Header<X>, m: Option<Mem>, c: Clock)
    | Get(next: u32)
    | Drain
    | Flush

  datatype Result<X> = Result(s: State<X>, err: Err, out: Option<Packet<X>>)

  function Step<X>(s: State<X>, op: Op<X>): (r: Result<X>)
    requires Sized(s)
    ensures Sized(r.s) && r.s.cfg == s.cfg
  {
    FreeAllSize(s.packets);
    match op
    case Put(h, m, c) => var r := PutStep(s, h, m, c); Result(r.s, r.err, None)
    case Get(next) => var r := GetStep(s, next); Result(r.s, r.err, r.out)
    case Drain => var r := DrainStep(s); Result(r.s, r.err, r.out)
    case Flush => Result(FlushStep(s), Ok, None)
  }

  /** `jbuf_alloc`, and the configuration calls that follow it. */
  function Init<X>(cfg: Config): (s: State<X>)
    requires cfg.maxsz >= 1
    ensures Sized(s)
  {
    State(cfg, seq(cfg.maxsz, (i: nat) => Cell(i, None)), [], 0, 0, 0, 0, ZERO_PLAYOUT, false, ZERO_STATS, multiset{})
  }

  function Front<T>(ops: seq<T>): seq<T>
    requires ops != []
  {
    ops[..|ops| - 1]
  }

  function Last<T>(ops: seq<T>): T
    requires ops != []
  {
    ops[|ops| - 1]
  }

  /** The state after a whole run. */
  function Exec<X>(s: State<X>, ops: seq<Op<X>>): (r: State<X>)
    requires Sized(s)
    ensures Sized(r) && r.cfg == s.cfg
    decreases |ops|
  {
    if ops == [] then s else Step(Exec(s, Front(ops)), Last(ops)).s
  }

  /** The put empties the buffer first, since the synchronization source changed. */
  predicate Resyncs<X>(s: State<X>, op: Op<X>) {
    op.Put? && op.h.tsArrive != 0 && s.ssrc != 0 && s.ssrc != op.h.ssrc
  }

  /** A step that starts a new epoch: an explicit flush or a change of source. */
  predicate Flushes<X>(s: State<X>, op: Op<X>) {
    op.Flush? || Resyncs(s, op)
  }
}
