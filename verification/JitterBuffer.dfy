/**
 * The jitter buffer object of src/jbuf.c, statement by statement.  Each method
 * is one locked section (or a helper called inside one) and is proved to have
 * exactly the effect of its transition in JbufModel.
 */
module JitterBuffer {
  import opened Words
  import opened JbufModel
  import JbufRun

  class Jbuf<X> {
    /** Set up once, by `jbuf_alloc` and the setters, before the first packet. */
    const cfg: Config
    var pooll: seq<Cell>
    var packetl: seq<Packet<X>>
    var n: u32
    var seqPut: u16
    var seqGet: u16
    var ssrc: u32
    var p: Playout
    var running: bool
    var stat: Stats
    var refs: multiset<Mem>

    /** The abstract value of the object: all of its fields. */
    function View(): State<X>
      reads this
    {
      State(cfg, pooll, packetl, n, seqPut, seqGet, ssrc, p, running, stat, refs)
    }

    /** `jbuf_alloc` with the setters that configure it. */
    constructor (cfg: Config)
      requires cfg.maxsz >= 1
      ensures View() == JbufRun.Init(cfg)
    {
      this.cfg := cfg;
      packetl, n, seqPut, seqGet, ssrc := [], 0, 0, 0, 0;
      p, running, stat, refs := ZERO_PLAYOUT, false, ZERO_STATS, multiset{};
      var pool: seq<Cell> := [];
      for i := 0 to cfg.maxsz
        invariant pool == seq(i, (j: nat) => Cell(j, None))
      {
        pool := pool + [Cell(i, None)];
      }
      pooll := pool;
    }

    method PacketAlloc() returns (f: Cell)
      requires Sized(View())
      modifies this
      ensures (View(), f) == Alloc(old(View()))
    {
      if pooll != [] {
        f := pooll[0];
        pooll := pooll[1..];
        n := W32(n + 1);
        stat := stat.(cPackets := W32(stat.cPackets + 1));
      } else {
        var f0 := packetl[0];
        stat := stat.(nOverflow := W32(stat.nOverflow + 1));
        refs := DropRef(refs, f0.mem);
        packetl := packetl[1..];
        f := Cell(f0.slot, None);
      }
    }

    method PacketDeref(i: nat)
      requires i < |packetl|
      modifies this
      ensures View() == Deref(old(View()), i)
    {
      var f := packetl[i];
      refs := DropRef(refs, f.mem);
      packetl := packetl[..i] + packetl[i+1..];
      pooll := pooll + [Cell(f.slot, None)];
      n := W32(n - 1);
      stat := stat.(cPackets := W32(stat.cPackets - 1));
    }

    method AdjustDueToJitter(h: Header<X>) returns (off: u32)
      requires cfg.srate > 0
      modifies this`p, this`stat
      ensures (p, off, stat.cJitter) == JitterStep(old(p), Transit(h), cfg.mind, cfg.srate, old(stat).cJitter)
      ensures stat == old(stat).(cJitter := stat.cJitter)
    {
      var transit := Transit(h);
      if p.lastTransit == 0 {
        p := p.(lastTransit := transit);
        return 0;
      }
      var d: int := S32(transit - p.lastTransit);
      if d < 0 {
        d := S32(-d);
      }
      assert d == Deviation(transit, p.lastTransit);
      var dMs := W32(DelayMs(d, cfg.srate));
      if dMs > cfg.mind / 2 {
        p := p.(jitter := JitterUpdate(p.jitter, d));
      }
      var jitter: u32 := p.jitter / 16;
      stat := stat.(cJitter := W32(DelayMs(S32(jitter), cfg.srate)));
      if p.latePkts >= LATE_THRESHOLD {
        p := p.(latePkts := 0);
        p := p.(jitterOffset := W32(2 * jitter));
      }
      p := p.(lastTransit := transit);
      return p.jitterOffset;
    }

    method AdjustDueToSkew(h: Header<X>, c: Clock) returns (adjust: int)
      requires cfg.srate > 0
      modifies this`p, this`stat
      ensures (p, adjust, stat.cSkew) == SkewStep(old(p), Transit(h), cfg.srate, c, old(stat).cSkew)
      ensures stat == old(stat).(cSkew := stat.cSkew)
    {
      var delay := Transit(h);
      if p.activeDelay == 0 {
        p := p.(activeDelay := delay);
        p := p.(delayEstimate := delay);
        p := p.(maxSkewMs := INT_MIN);
        p := p.(skewt := c.store);
        return 0;
      }
      p := p.(delayEstimate := (31 * p.delayEstimate + delay) / 32);
      var skewMs := DelayMs(S32(p.activeDelay - p.delayEstimate), cfg.srate);
      stat := stat.(cSkew := skewMs);
      if skewMs > p.maxSkewMs {
        p := p.(maxSkewMs := skewMs);
      }
      if W64(c.check - p.skewt) > DRIFT_WINDOW {
        var maxSkew := p.maxSkewMs;
        p := p.(skewt := c.store);
        p := p.(maxSkewMs := INT_MIN);
        if maxSkew > MAX_DRIFT {
          p := p.(activeDelay := p.delayEstimate);
          return -MAX_DRIFT;
        }
        if maxSkew < -MAX_DRIFT {
          p := p.(activeDelay := p.delayEstimate);
          return MAX_DRIFT;
        }
      }
      return 0;
    }

    /** The playout time of a packet with header `h` at position `i` of the list. */
    method CalcPlayoutTime(h: Header<X>, i: nat) returns (playout: u32)
      requires i <= |packetl| && cfg.srate > 0
      modifies this`p, this`stat
      ensures (p, stat, playout) == PlayoutStep(cfg, old(p), old(stat), Before(packetl, i), h)
    {
      if i > 0 && packetl[i-1].hdr.ts == h.ts {
        return packetl[i-1].playout;
      }
      if p.offset == 0 {
        p := p.(offset := Transit(h));
      } else {
        p := p.(offset := OffsetMin(p.offset, Transit(h)));
      }
      var playTimeBase: int := W32(h.ts + p.offset);
      var latency := Latency(h);
      stat := stat.(cDelay := W32(DelayMs(S32(latency), cfg.srate)));
      return W32(playTimeBase + latency);
    }

    /** The latency part of `calc_playout_time`: jitter compensation within the configured limits. */
    method Latency(h: Header<X>) returns (latency: u32)
      requires cfg.srate > 0
      modifies this`p, this`stat
      ensures var r := AdaptStep(cfg, old(p), Transit(h), old(stat).cJitter);
        && p == r.0 && latency == Clamp(r.1, MinLat(cfg), MaxLat(cfg))
        && stat == old(stat).(cJitter := r.2)
    {
      latency := 0;
      if cfg.jbtype.Adaptive? {
        latency := AdjustDueToJitter(h);
      }
      var minLat := W32(cfg.srate / 1000 * cfg.mind);
      var maxLat := W32(cfg.srate / 1000 * cfg.maxd);
      if latency < minLat {
        latency := minLat;
      } else if latency > maxLat {
        latency := maxLat;
      }
    }

    method SendGnack(pid: u16, blpPkts: int) returns (nack: Gnack)
      modifies this`stat
      ensures nack == MakeGnack(pid, blpPkts)
      ensures stat == old(stat).(nGnacks := W32(old(stat).nGnacks + 1))
    {
      var blp: u16 := 0;
      var pkts := blpPkts;
      if pkts > 16 {
        pkts := 16;
      }
      if pkts > 0 {
        blp := W16(Pow2(pkts) - 1);
      }
      stat := stat.(nGnacks := W32(stat.nGnacks + 1));
      nack := Gnack(pid, blp);
    }

    /** The end of `jbuf_put`: reacts to a skew adjustment or a missed playout time. */
    method Finish(i: nat, adjust: int, late: bool) returns (err: Err)
      requires i < |packetl|
      modifies this
      ensures (View(), err) == Settle(old(View()), i, adjust, late)
    {
      if adjust > 0 {
        p := p.(offset := 0);
        return Ok;
      } else if adjust < 0 {
        p := p.(offset := 0);
        PacketDeref(i);
        return ETIME;
      }
      if late {
        p := p.(latePkts := W16(p.latePkts + 1));
        stat := stat.(nLate := W32(stat.nLate + 1));
      }
      return Ok;
    }

    /** Fills the structure `cell`, links it at position `i` and computes its playout time. */
    method Link(cell: Cell, i: nat, h: Header<X>, m: Option<Mem>) returns (playout: u32)
      requires i <= |packetl| && cfg.srate > 0
      modifies this
      ensures (p, stat, playout) == PlayoutStep(cfg, old(p), old(stat), Before(old(packetl), i), h)
      ensures View() == Fill(old(View()), cell, i, h, m, playout).(p := p, stat := stat)
    {
      running := true;
      seqPut := h.seqno;
      refs := AddRef(refs, m);
      playout := CalcPlayoutTime(h, i);
      packetl := InsertAt(packetl, i, Packet(cell.slot, h, playout, m));
    }

    /** `jbuf_put` from `success:` on: stores the packet at position `i` and settles its timing. */
    method Store(cell: Cell, i: nat, h: Header<X>, m: Option<Mem>, c: Clock) returns (err: Err)
      requires i <= |packetl| && cfg.srate > 0
      modifies this
      ensures (View(), err) == Admit(old(View()), cell, i, h, m, c)
    {
      var playout := Link(cell, i, h, m);
      var adjust := AdjustDueToSkew(h, c);
      assert View() == Fill(old(View()), cell, i, h, m, playout).(p := p, stat := stat);
      err := Finish(i, adjust, playout < c.next);
    }

    /** The backward search of `jbuf_put`. */
    method FindPlace(seqno: u16) returns (place: Place)
      ensures place == Locate(packetl, seqno, |packetl|)
    {
      var k: nat := |packetl|;
      while k > 0
        invariant k <= |packetl|
        invariant Locate(packetl, seqno, k) == Locate(packetl, seqno, |packetl|)
      {
        var seqLe := packetl[k-1].hdr.seqno;
        if SeqLess(seqLe, seqno) {
          return At(k);
        } else if seqno == seqLe {
          return Dup(k - 1);
        }
        k := k - 1;
      }
      return At(0);
    }

    /** A duplicate is inserted and released at once: only its structure moves. */
    method DropDuplicate(cell: Cell)
      modifies this
      ensures View() == GiveBack(old(View()), cell)
    {
      refs, pooll, n := DropRef(refs, cell.mem), pooll + [Cell(cell.slot, None)], W32(n - 1);
      stat := stat.(nDups := W32(stat.nDups + 1), cPackets := W32(stat.cPackets - 1));
    }

    /** Reports the gap between the tail and a packet appended behind it. */
    method ReportGap(seqno: u16) returns (nack: Option<Gnack>)
      requires packetl != []
      modifies this`stat
      ensures (View(), nack) == Announce(old(View()), |packetl|, seqno)
    {
      nack := None;
      var lastSeq := packetl[|packetl| - 1].hdr.seqno;
      var seqDiff := S16(seqno - lastSeq);
      if cfg.gnack && seqDiff > 1 {
        var pid := W16((lastSeq as int) + 1);
        var g := SendGnack(pid, seqDiff - 2);
        nack := Some(g);
      }
    }

    /** The middle of `jbuf_put`: appends behind the tail or searches backwards for the place. */
    method Insert(cell: Cell, h: Header<X>, m: Option<Mem>, c: Clock) returns (err: Err, nack: Option<Gnack>)
      requires cfg.srate > 0
      modifies this
      ensures PutResult(View(), err, nack) == Enter(old(View()), cell, h, m, c)
    {
      nack := None;
      if packetl == [] {
        err := Store(cell, 0, h, m, c);
      } else if SeqLess(packetl[|packetl| - 1].hdr.seqno, h.seqno) {
        nack := ReportGap(h.seqno);
        err := Store(cell, |packetl|, h, m, c);
      } else {
        var place := FindPlace(h.seqno);
        if place.Dup? {
          DropDuplicate(cell);
          err := EALREADY;
        } else {
          stat := stat.(nOos := W32(stat.nOos + 1));
          err := Store(cell, place.i, h, m, c);
        }
      }
    }

    /** `jbuf_put` once the packet is neither refused nor late. */
    method Take(h: Header<X>, m: Option<Mem>, c: Clock) returns (err: Err, nack: Option<Gnack>)
      requires Sized(View()) && cfg.srate > 0
      modifies this
      ensures PutResult(View(), err, nack) == Accept(old(View()), h, m, c)
    {
      stat := stat.(nPut := W32(stat.nPut + 1));
      assert View() == CountPut(old(View()));
      var f := PacketAlloc();
      err, nack := Insert(f, h, m, c);
    }

    method CountLate()
      modifies this`stat, this`p
      ensures View() == Reject(old(View()))
    {
      stat := stat.(nLateLost := W32(stat.nLateLost + 1));
      p := p.(latePkts := W16(p.latePkts + 1));
    }

    /** A change of synchronization source empties the buffer. */
    method Resync(h: Header<X>)
      modifies this
      ensures View() == Resynced(old(View()), h)
    {
      if ssrc != 0 && ssrc != h.ssrc {
        Flush();
      }
    }

    /** `jbuf_put` from its locked section on. */
    method PutHeld(h: Header<X>, m: Option<Mem>, c: Clock) returns (err: Err, nack: Option<Gnack>)
      requires Sized(View())
      modifies this
      ensures PutResult(View(), err, nack) == PutLocked(old(View()), h, m, c)
    {
      if cfg.srate == 0 {
        return EINVAL, None;
      }
      ssrc := h.ssrc;
      assert View() == old(View()).(ssrc := h.ssrc);
      if running && seqGet != 0 && SeqLess(h.seqno, W16(seqGet + 1)) {
        CountLate();
        return ETIMEDOUT, None;
      }
      err, nack := Take(h, m, c);
    }

    /** `jbuf_put`. */
    method Put(h: Header<X>, m: Option<Mem>, c: Clock) returns (err: Err, nack: Option<Gnack>)
      requires Sized(View())
      modifies this
      ensures PutResult(View(), err, nack) == PutStep(old(View()), h, m, c)
    {
      if h.tsArrive == 0 {
        return EINVAL, None;
      }
      FreeAllSize(packetl);
      Resync(h);
      err, nack := PutHeld(h, m, c);
    }

    /** Hands the head packet to a caller, with a reference of its own. */
    method Release() returns (f: Packet<X>)
      requires packetl != []
      modifies this
      ensures View() == Deliver(old(View())) && f == old(packetl)[0]
    {
      f := packetl[0];
      refs := AddRef(refs, f.mem);
      seqGet := f.hdr.seqno;
      PacketDeref(0);
    }

    /** Counts the packets lost between the last delivery and the head. */
    method CountLoss()
      requires packetl != []
      modifies this`stat
      ensures View() == CountLost(old(View()), LostBefore(seqGet, packetl[0].hdr.seqno))
    {
      var seqno := packetl[0].hdr.seqno;
      if seqGet != 0 && !SeqLess(seqno, seqGet) {
        var seqDiff := S16(seqno - seqGet);
        if seqDiff > 1 {
          stat := stat.(nLost := W32(stat.nLost + seqDiff - 1));
        }
      }
    }

    /** `jbuf_get` at playout clock `next`. */
    method Get(next: u32) returns (err: Err, out: Option<Packet<X>>)
      modifies this
      ensures GetResult(View(), err, out) == GetStep(old(View()), next)
    {
      stat := stat.(nGet := W32(stat.nGet + 1));
      assert View() == CountGet(old(View()));
      if packetl == [] || packetl[0].playout > next {
        return ENOENT, None;
      }
      CountLoss();
      err := if |packetl| > 1 && packetl[1].playout <= next then EAGAIN else Ok;
      var f := Release();
      out := Some(f);
    }

    /** `jbuf_drain`. */
    method Drain() returns (err: Err, out: Option<Packet<X>>)
      modifies this
      ensures GetResult(View(), err, out) == DrainStep(old(View()))
    {
      if n <= 0 || packetl == [] {
        return ENOENT, None;
      }
      var f := Release();
      return Ok, Some(f);
    }

    /** Puts all buffered packets back in the pool. */
    method FreePackets()
      modifies this
      ensures packetl == [] && pooll == old(pooll) + FreeAll(old(packetl))
      ensures refs == DropAll(old(refs), old(packetl))
      ensures ssrc == old(ssrc) && seqPut == old(seqPut) && stat.nFlush == old(stat).nFlush
    {
      while packetl != []
        invariant ssrc == old(ssrc) && seqPut == old(seqPut) && stat.nFlush == old(stat).nFlush
        invariant pooll + FreeAll(packetl) == old(pooll) + FreeAll(old(packetl))
        invariant DropAll(refs, packetl) == DropAll(old(refs), old(packetl))
        decreases |packetl|
      {
        ghost var s := View();
        PacketDeref(0);
        DerefHead(s);
      }
    }

    /** `jbuf_flush`. */
    method Flush()
      modifies this
      ensures View() == FlushStep(old(View()))
    {
      FreePackets();
      n := 0;
      running := false;
      seqGet := 0;
      p := ZERO_PLAYOUT;
      stat := ZERO_STATS.(nFlush := W32(stat.nFlush + 1));
    }

    /** A caller releases a payload that it was handed. */
    method Unref(m: Option<Mem>)
      modifies this`refs
      ensures refs == DropRef(old(refs), m)
    {
      refs := DropRef(refs, m);
    }

    /** `jbuf_packets`. */
    method Packets() returns (k: u32)
      ensures k == View().n
    {
      k := n;
    }

    /** `jbuf_next_play` at playout clock `current`. */
    method NextPlayTime(current: u32) returns (r: NextPlay)
      requires packetl != [] ==> cfg.srate > 0
      ensures r == NextPlayOf(View(), current)
    {
      if packetl == [] {
        return NoPacket;
      }
      var f := packetl[0];
      if f.hdr.seqno != W16(seqGet + 1) {
        return OutOfOrder;
      }
      if f.playout <= current {
        return Wait(0);
      }
      var ret := DelayMs(S32(f.playout - current), cfg.srate);
      if ret == 0 {
        ret := 1;
      }
      return Wait(ret);
    }
  }

  /** Releasing the head packet leaves what releasing all packets would do as it was. */
  lemma DerefHead<X>(s: State<X>)
    requires s.packets != []
    ensures var r := Deref(s, 0);
      && r.pool + FreeAll(r.packets) == s.pool + FreeAll(s.packets)
      && DropAll(r.refs, r.packets) == DropAll(s.refs, s.packets)
  {
    assert s.packets[..0] + s.packets[1..] == s.packets[1..];
    var freed, rest := [Cell(s.packets[0].slot, None)], FreeAll(s.packets[1..]);
    assert (s.pool + freed) + rest == s.pool + (freed + rest);
  }

  /** Any sequence of calls on a new object is a run of the transition system. */
  method Drive<X>(cfg: Config, ops: seq<JbufRun.Op<X>>) returns (jb: Jbuf<X>)
    requires cfg.maxsz >= 1
    ensures fresh(jb) && jb.View() == JbufRun.Exec(JbufRun.Init(cfg), ops)
  {
    jb := new Jbuf<X>(cfg);
    for i := 0 to |ops|
      invariant fresh(jb) && jb.View() == JbufRun.Exec(JbufRun.Init(cfg), ops[..i])
    {
      assert JbufRun.Front(ops[..i+1]) == ops[..i];
      Call(jb, ops[i]);
    }
    assert ops[..|ops|] == ops;
  }

  method Call<X>(jb: Jbuf<X>, op: JbufRun.Op<X>)
    requires Sized(jb.View())
    modifies jb
    ensures jb.View() == JbufRun.Step(old(jb.View()), op).s
  {
    match op
    case Put(h, m, c) => var err, nack := jb.Put(h, m, c);
    case Get(next) => var err, out := jb.Get(next);
    case Drain => var err, out := jb.Drain();
    case Flush => jb.Flush();
  }
}
