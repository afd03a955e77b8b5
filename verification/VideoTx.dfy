/**
 * The video transmitter of src/video.c: the loop of `vtx_thread`, which paces
 * packets and keeps them for retransmission, and the NACK handler, which runs
 * in another thread between two iterations.
 */
module VideoTx {
  import opened Words
  import opened JbufModel
  import opened Nack
  import opened Pacer
  import opened Retransmit

  /** One pass of the loop: clock reading, departure, and the number that the RTP session gave the packet. */
  datatype Pass = Pass(jfs: u64, sendTime: u64, seqno: u16)

  /** A packet to send; `id` is its identity. */
  datatype Outgoing = Outgoing(id: nat, octets: nat)

  function BitsOf(f: Outgoing): u64 { W64(8 * f.octets) }

  /** What happens to the transmitter: an iteration, a packet to send, a NACK, or the end of the video. */
  datatype Event = Iteration(p: Pass) | Enqueue(f: Outgoing) | Request(g: Gnack) | Stop

  /** The packets that wait, those sent, and what pacer and retransmission queue have gone through. */
  datatype Trace = Trace(sendq: seq<Outgoing>, sent: seq<Outgoing>, ticks: seq<Tick>, ops: seq<Op>)

  function TraceStep(t: Trace, e: Event): Trace {
    match e
    case Iteration(p) =>
      if t.sendq == [] then t
      else Trace(t.sendq[1..], t.sent + [t.sendq[0]], t.ticks + [Tick(p.jfs, p.sendTime, BitsOf(t.sendq[0]))],
                 t.ops + [Sent(p.jfs, p.seqno)])
    case Enqueue(f) => t.(sendq := t.sendq + [f])
    case Request(g) => t.(ops := t.ops + [Nacked(g)])
    case Stop => t.(sendq := [], ops := t.ops + [Cleared])
  }

  function TraceOf(events: seq<Event>): Trace
    decreases |events|
  {
    if events == [] then Trace([], [], [], []) else TraceStep(TraceOf(events[..|events|-1]), events[|events|-1])
  }

  class Transmitter {
    const rate: Rate
    /** Packets waiting to be sent. */
    var sendq: seq<Outgoing>
    var sendqnb: seq<Entry>
    var startJfs: u64
    var targetJfs: u64
    var sent: u64
    /** The identity that the next queue entry gets. */
    var nextId: nat

    function View(): Bucket
      reads this
    {
      Bucket(startJfs, targetJfs, sent)
    }

    constructor (rate: Rate, start: u64, target: u64)
      requires rate.bitrate > 0
      ensures this.rate == rate && View() == Bucket(start, target, 0)
      ensures sendq == [] && Waiting(sendqnb, nextId) == Run([])
    {
      this.rate := rate;
      sendq, sendqnb, nextId := [], [], 0;
      startJfs, targetJfs, sent := start, target, 0;
    }

    /** Waits for the target or resets it, and charges a packet; returns the sleep asked for. */
    method Pace(jfs: u64, bits: u64) returns (sleep: u32)
      requires rate.bitrate > 0
      modifies this`startJfs, this`targetJfs, this`sent
      ensures sleep == Throttle(rate, old(View()), jfs).1
      ensures View() == Charge(rate, Throttle(rate, old(View()), jfs).0, bits)
    {
      var maxDelay := MaxDelay(rate);
      var maxBurst := MaxBurst(rate);
      sleep := 0;
      if jfs < targetJfs {
        var delay := targetJfs - jfs;
        if delay > maxDelay {
          delay := maxDelay;
          startJfs := W64(jfs + delay);
          sent := 0;
        }
        sleep := W32(delay);
      } else if W64(jfs - maxBurst) > targetJfs {
        startJfs := W64(jfs - maxBurst);
        sent := 0;
      }
      sent := W64(sent + bits);
      targetJfs := W64(startJfs + W64(sent * USEC) / rate.bitrate);
    }

    /** The delayed cleanup at the end of an iteration. */
    method CleanUp(jfs: u64)
      modifies this`sendqnb
      ensures sendqnb == Cleanup(old(sendqnb), jfs)
    {
      while sendqnb != [] && jfs > sendqnb[0].deadline
        invariant Cleanup(sendqnb, jfs) == Cleanup(old(sendqnb), jfs)
        decreases |sendqnb|
      {
        sendqnb := sendqnb[1..];
      }
    }

    /** One iteration with a packet to send. */
    method SendHead(p: Pass) returns (f: Outgoing, sleep: u32)
      requires rate.bitrate > 0 && sendq != []
      modifies this
      ensures f == old(sendq)[0] && sendq == old(sendq)[1..]
      ensures View() == PaceStep(rate, old(View()), Tick(p.jfs, p.sendTime, BitsOf(f)))
      ensures sleep == Throttle(rate, old(View()), p.jfs).1
      ensures Waiting(sendqnb, nextId) == QueueStep(old(Waiting(sendqnb, nextId)), Sent(p.jfs, p.seqno))
    {
      f := sendq[0];
      sleep := Pace(p.jfs, W64(8 * f.octets));
      sendq := sendq[1..];
      sendqnb := sendqnb + [Entry(nextId, p.seqno, p.jfs + NACK_QUEUE_USEC)];
      nextId := nextId + 1;
      CleanUp(p.jfs);
    }

    /** The state of the transmitter after a trace that began with the bucket `b`. */
    ghost predicate After(b: Bucket, t: Trace)
      requires rate.bitrate > 0
      reads this
    {
      && sendq == t.sendq && View() == BucketAt(rate, b, t.ticks, |t.ticks|)
      && Waiting(sendqnb, nextId) == Run(t.ops)
    }

    /** One pass of the loop of `vtx_thread`: it sends a packet, or waits if there is none. */
    method Iterate(p: Pass, ghost b: Bucket, ghost t: Trace) returns (out: seq<Outgoing>)
      requires rate.bitrate > 0 && After(b, t)
      modifies this
      ensures After(b, TraceStep(t, Iteration(p))) && TraceStep(t, Iteration(p)).sent == t.sent + out
    {
      out := [];
      if sendq != [] {
        ghost var tick := Tick(p.jfs, p.sendTime, BitsOf(sendq[0]));
        Pacer.Prefix(rate, b, t.ticks, [tick], |t.ticks|);
        var f, _ := SendHead(p);
        out := [f];
        RunSnoc(t.ops, Sent(p.jfs, p.seqno));
      }
    }

    /** A locked section of another thread, between two passes. */
    method Interfere(e: Event, ghost b: Bucket, ghost t: Trace)
      requires rate.bitrate > 0 && After(b, t) && !e.Iteration?
      modifies this`sendq, this`sendqnb
      ensures After(b, TraceStep(t, e))
    {
      match e
      case Enqueue(f) => sendq := sendq + [f];
      case Request(g) =>
        var resent := NackHandler(g);
        RunSnoc(t.ops, Nacked(g));
      case Stop =>
        sendq, sendqnb := [], [];
        RunSnoc(t.ops, Cleared);
    }

    /** The search of `rtcp_nack_handler` for the first number. */
    method FindEntry(pid: u16) returns (le: nat)
      ensures le == Find(sendqnb, pid)
    {
      le := 0;
      while le < |sendqnb| && sendqnb[le].seqno != pid
        invariant le <= |sendqnb|
        invariant Find(sendqnb, pid) == le + Find(sendqnb[le..], pid)
      {
        assert sendqnb[le..][1..] == sendqnb[le+1..];
        le := le + 1;
      }
    }

    /** `rtcp_nack_handler`: finds the first number and walks the table along the queue from there. */
    method NackHandler(g: Gnack) returns (resent: seq<Entry>)
      modifies this`sendqnb
      ensures resent == Resent(old(sendqnb), g)
      ensures sendqnb == Remaining(old(sendqnb), g)
    {
      var pids := FillPids(g);
      var le := FindEntry(g.pid);
      var kept;
      resent, kept := Walk(sendqnb[le..], pids);
      sendqnb := sendqnb[..le] + kept;
    }
  }

  /** The resend loop: each entry is resent and dropped, or kept. */
  method Walk(q: seq<Entry>, pids: array<u16>) returns (resent: seq<Entry>, kept: seq<Entry>)
    ensures resent == Picked(q, pids[..]) && kept == Unpicked(q, pids[..])
  {
    ghost var table := pids[..];
    resent, kept := [], [];
    var i := 0;
    while i < pids.Length && i < |q|
      invariant i <= pids.Length && i <= |q|
      invariant Picked(q, table) == resent + Picked(q[i..], table[i..])
      invariant Unpicked(q, table) == kept + Unpicked(q[i..], table[i..])
    {
      WalkStep(q, table, i);
      if q[i].seqno == pids[i] {
        resent := resent + [q[i]];
      } else {
        kept := kept + [q[i]];
      }
      i := i + 1;
    }
    WalkEnd(q, table, i);
    kept := kept + q[i..];
  }

  lemma WalkStep(q: seq<Entry>, table: seq<u16>, i: nat)
    requires i < |q| && i < |table|
    ensures Picked(q[i..], table[i..]) ==
      (if q[i].seqno == table[i] then [q[i]] else []) + Picked(q[i+1..], table[i+1..])
    ensures Unpicked(q[i..], table[i..]) ==
      (if q[i].seqno == table[i] then [] else [q[i]]) + Unpicked(q[i+1..], table[i+1..])
  {
    assert q[i..][1..] == q[i+1..] && table[i..][1..] == table[i+1..];
  }

  lemma WalkEnd(q: seq<Entry>, table: seq<u16>, i: nat)
    requires i <= |q| && i <= |table| && (i == |q| || i == |table|)
    ensures Picked(q[i..], table[i..]) == [] && Unpicked(q[i..], table[i..]) == q[i..]
  {
  }

  lemma RunSnoc(ops: seq<Op>, op: Op)
    ensures Run(ops + [op]) == QueueStep(Run(ops), op)
    ensures HistoryOf(ops + [op]) == HistoryStep(Run(ops), HistoryOf(ops), op)
    ensures MonotoneClock(ops + [op]) <==> MonotoneClock(ops) && (op.Sent? ==> HistoryOf(ops).now <= op.now)
  {
    assert (ops + [op])[..|ops|] == ops;
  }

  /** `vtx_thread` of a new transmitter, in any mix with what the other threads do. */
  method Thread(rate: Rate, start: u64, target: u64, events: seq<Event>)
    returns (tx: Transmitter, sent: seq<Outgoing>)
    requires rate.bitrate > 0
    ensures fresh(tx) && tx.rate == rate && tx.After(Bucket(start, target, 0), TraceOf(events))
    ensures sent == TraceOf(events).sent
  {
    sent := [];
    tx := new Transmitter(rate, start, target);
    ghost var b := Bucket(start, target, 0);
    for i := 0 to |events|
      invariant fresh(tx) && tx.rate == rate && tx.After(b, TraceOf(events[..i])) && sent == TraceOf(events[..i]).sent
    {
      assert events[..i+1][..i] == events[..i];
      ghost var t := TraceOf(events[..i]);
      match events[i] {
        case Iteration(p) =>
          var out := tx.Iterate(p, b, t);
          sent := sent + out;
        case _ => tx.Interfere(events[i], b, t);
      }
    }
    assert events[..|events|] == events;
  }

  // ---------------------------------------------------------------- whole runs

  function Enqueued(events: seq<Event>): seq<Outgoing>
    decreases |events|
  {
    if events == [] then []
    else Enqueued(events[..|events|-1]) + (match events[|events|-1] case Enqueue(f) => [f] case _ => [])
  }

  /** The pacer is charged for each packet sent, in order. */
  predicate Charged(t: Trace) {
    |t.ticks| == |t.sent| && forall k :: 0 <= k < |t.sent| ==> t.ticks[k].bits == BitsOf(t.sent[k])
  }

  lemma {:induction false} AlwaysCharged(events: seq<Event>)
    ensures Charged(TraceOf(events))
    decreases |events|
  {
    if events != [] {
      AlwaysCharged(events[..|events|-1]);
    }
  }

  /** While the video runs, packets are sent in the order in which they were queued, each once, and none is lost. */
  lemma {:induction false} SendsInOrder(events: seq<Event>)
    requires Stop !in events
    ensures var t := TraceOf(events); t.sent + t.sendq == Enqueued(events) && Charged(t)
    decreases |events|
  {
    AlwaysCharged(events);
    if events != [] {
      var f, e := events[..|events|-1], events[|events|-1];
      SendsInOrder(f);
      var t := TraceOf(f);
      match e
      case Iteration(p) =>
        if t.sendq != [] {
          assert t.sent + t.sendq == (t.sent + [t.sendq[0]]) + t.sendq[1..];
        }
      case Enqueue(g) =>
        assert t.sent + (t.sendq + [g]) == (t.sent + t.sendq) + [g];
      case Request(g) =>
    }
  }

  /** A part of a valid run of the pacer is one. */
  lemma ValidPrefix(r: Rate, b: Bucket, ts: seq<Tick>, t: Tick)
    requires Valid(r, b, ts + [t])
    ensures Valid(r, b, ts) && (ts != [] ==> ts[|ts|-1].jfs <= t.jfs)
  {
    forall k | 0 <= k < |ts| ensures ValidTick(r, b, ts, k) {
      Pacer.Prefix(r, b, ts, [t], k);
      assert ValidTick(r, b, ts + [t], k);
    }
    assert ValidTick(r, b, ts + [t], |ts|);
    assert ts != [] ==> ValidTick(r, b, ts, |ts| - 1);
  }

  function LastReading(ts: seq<Tick>): nat { if ts == [] then 0 else ts[|ts|-1].jfs }

  /** The retransmission queue has seen a monotone clock, up to the last reading of the pacer. */
  predicate InTime(t: Trace) { MonotoneClock(t.ops) && HistoryOf(t.ops).now == LastReading(t.ticks) }

  lemma StepInTime(t: Trace, e: Event)
    requires InTime(t) && (e.Iteration? && t.sendq != [] ==> LastReading(t.ticks) <= e.p.jfs)
    ensures InTime(TraceStep(t, e))
  {
    match e
    case Iteration(p) => RunSnoc(t.ops, Sent(p.jfs, p.seqno));
    case Enqueue(f) =>
    case Request(g) => RunSnoc(t.ops, Nacked(g));
    case Stop => RunSnoc(t.ops, Cleared);
  }

  /** The clock of a valid run of the pacer is monotone for the retransmission queue too. */
  lemma {:induction false} ValidIsMonotone(r: Rate, b: Bucket, events: seq<Event>)
    requires Valid(r, b, TraceOf(events).ticks)
    ensures InTime(TraceOf(events))
    decreases |events|
  {
    if events != [] {
      var f, e := events[..|events|-1], events[|events|-1];
      var t := TraceOf(f);
      if e.Iteration? && t.sendq != [] {
        ValidPrefix(r, b, t.ticks, Tick(e.p.jfs, e.p.sendTime, BitsOf(t.sendq[0])));
      }
      ValidIsMonotone(r, b, f);
      StepInTime(t, e);
    }
  }

  /**
   * The whole transmitter: whatever the other threads do between its passes,
   * in every valid run any packets in a row respect the rate bound, and the
   * retransmission queue holds exactly what was sent, was not resent and is not
   * overdue.
   */
  lemma TransmitterKeeps(r: Rate, b: Bucket, events: seq<Event>, i: nat, j: nat)
    requires var t := TraceOf(events); r.bitrate >= 3 && Valid(r, b, t.ticks) && i <= j < |t.ticks|
    ensures var t := TraceOf(events);
      && Kept(Run(t.ops), HistoryOf(t.ops))
      && Bits(t.ticks, i, j + 1) * USEC <= Allowance(r, b, t.ticks, i, j) + (r.burstBits + t.ticks[j].bits) * USEC
  {
    ValidIsMonotone(r, b, events);
    RunKept(TraceOf(events).ops);
    RateBound(r, b, TraceOf(events).ticks, i, j);
  }
}
