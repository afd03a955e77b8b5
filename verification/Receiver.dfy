/**
 * The RTP receiver of src/rtprecv.c: it sets up numbers and sources for the
 * packets that come in, and drains the jitter buffer when they are due.
 */
module Receiver {
  import opened Words
  import opened JbufModel
  import opened JitterBuffer
  import opened LossAccounting
  import JbufOrder

  const FALLBACK_MS := 10

  /** How many packets at the head of the list are due at playout clock `next`. */
  function DueCount<X>(ps: seq<Packet<X>>, next: u32): (k: nat)
    ensures k <= |ps|
    ensures forall i :: 0 <= i < k ==> ps[i].playout <= next
    ensures k < |ps| ==> ps[k].playout > next
  {
    if ps == [] || ps[0].playout > next then 0 else 1 + DueCount(ps[1..], next)
  }

  /** The source and the number of the last packet that the receiver knows about. */
  datatype Source = Source(ssrc: u32, pseq: u32, pseqSet: bool, changed: bool)

  const NO_SOURCE := Source(0, NO_SEQ, false, false)

  /** A packet given to `handle_rtp`, and whether it was passed to the media handler, with which flag. */
  datatype Handled<X> = Handled(pkt: Packet<X>, lostc: nat, drop: bool, passed: bool, newSource: bool)

  function NonNegative(x: int): nat { if x > 0 then x else 0 }

  /**
   * What `handle_rtp` and the loss count before it do with a packet: one whose
   * header extension is corrupt is dropped before a new source is announced.
   */
  function Handle<X>(src: Source, f: Packet<X>, drop: bool): (Source, Handled<X>) {
    var (pseq, lostc) := LostCalc(src.pseq, f.hdr.seqno);
    (src.(pseq := pseq, changed := src.changed && !f.hdr.extOk),
     Handled(f, NonNegative(lostc), drop, f.hdr.extOk, src.changed && f.hdr.extOk))
  }

  /** What draining leaves behind: the calls of the handler, the buffer and the source. */
  datatype Decoded<X> = Decoded(handled: seq<Handled<X>>, s: State<X>, src: Source)

  /** A packet was taken from the buffer, and its payload is released after it was handled. */
  function Taken<X>(r: GetResult<X>): State<X>
    requires r.out.Some?
  {
    r.s.(refs := DropRef(r.s.refs, r.out.value.mem))
  }

  /** The loop of `decode_frames`: get, handle and release, up to the first get that fails. */
  function DecodeDue<X>(s: State<X>, src: Source, next: u32): Decoded<X>
    decreases |s.packets|
  {
    var r := GetStep(s, next);
    if r.out.None? then Decoded([], r.s, src) else
    var (src', h) := Handle(src, r.out.value, r.err == EAGAIN);
    After([h], DecodeDue(Taken(r), src', next))
  }

  /** The handler calls of `d` after those of `hs`. */
  function After<X>(hs: seq<Handled<X>>, d: Decoded<X>): Decoded<X> { d.(handled := hs + d.handled) }

  lemma AfterSnoc<X>(hs: seq<Handled<X>>, h: Handled<X>, d: Decoded<X>)
    ensures After(hs, After([h], d)) == After(hs + [h], d)
  {
    assert hs + ([h] + d.handled) == (hs + [h]) + d.handled;
  }

  lemma AfterEnds<X>(hs: seq<Handled<X>>, d: Decoded<X>)
    ensures After([], d) == d && (d.handled == [] ==> After(hs, d) == Decoded(hs, d.s, d.src))
  {
  }

  /** The head packet is taken, the references stay balanced. */
  lemma TakenShape<X>(s: State<X>, next: u32)
    requires GetStep(s, next).out.Some?
    ensures s.packets != [] && s.packets[0].playout <= next
    ensures var r := GetStep(s, next);
      && r.out.value == s.packets[0] && Taken(r).packets == s.packets[1..]
      && Taken(r).seqGet == s.packets[0].hdr.seqno && Taken(r).refs == DropRef(s.refs, s.packets[0].mem)
      && (r.err == EAGAIN <==> |s.packets| > 1 && s.packets[1].playout <= next)
  {
    var f := s.packets[0];
    assert s.packets[..0] + s.packets[1..] == s.packets[1..];
    assert DropRef(AddRef(s.refs, f.mem), f.mem) == s.refs;
  }

  /** `pseq` once the first `k` packets of a list have been counted. */
  function PseqAt<X>(pseq: u32, ps: seq<Packet<X>>, k: nat): u32
    requires k <= |ps|
  {
    if k == 0 then pseq else LostCalc(PseqAt(pseq, ps, k - 1), ps[k-1].hdr.seqno).0
  }

  lemma {:induction false} PseqAtTail<X>(pseq: u32, ps: seq<Packet<X>>, k: nat)
    requires 0 < k <= |ps|
    ensures PseqAt(pseq, ps, k) == PseqAt(LostCalc(pseq, ps[0].hdr.seqno).0, ps[1..], k - 1)
  {
    if k > 1 {
      PseqAtTail(pseq, ps, k - 1);
    }
  }

  /** A new source is still to be announced after the first `k` packets: none of them was passed on. */
  predicate Pending<X>(changed: bool, ps: seq<Packet<X>>, k: nat)
    requires k <= |ps|
  {
    changed && forall j :: 0 <= j < k ==> !ps[j].hdr.extOk
  }

  lemma PendingTail<X>(changed: bool, ps: seq<Packet<X>>, k: nat)
    requires 0 < k <= |ps|
    ensures Pending(changed, ps, k) <==> Pending(changed && !ps[0].hdr.extOk, ps[1..], k - 1)
  {
    if Pending(changed && !ps[0].hdr.extOk, ps[1..], k - 1) {
      forall j | 0 <= j < k ensures !ps[j].hdr.extOk {
        assert j > 0 ==> ps[j] == ps[1..][j-1];
      }
    }
  }

  /** Packet `k` of the list, as it is handled among `n` due packets. */
  ghost predicate HandledAt<X>(h: Handled<X>, src: Source, ps: seq<Packet<X>>, n: nat, k: nat)
    requires k < |ps|
  {
    && h.pkt == ps[k] && (h.drop <==> k + 1 < n) && (h.passed <==> ps[k].hdr.extOk)
    && (h.newSource <==> h.passed && Pending(src.changed, ps, k))
    && h.lostc == NonNegative(LostCalc(PseqAt(src.pseq, ps, k), ps[k].hdr.seqno).1)
  }

  lemma HandledShift<X>(h: Handled<X>, src: Source, ps: seq<Packet<X>>, n: nat, k: nat)
    requires 0 < k < |ps| && n > 0
    requires
      var pseq, changed := LostCalc(src.pseq, ps[0].hdr.seqno).0, src.changed && !ps[0].hdr.extOk;
      HandledAt(h, src.(pseq := pseq, changed := changed), ps[1..], n - 1, k - 1)
    ensures HandledAt(h, src, ps, n, k)
  {
    PseqAtTail(src.pseq, ps, k);
    PendingTail(src.changed, ps, k);
  }

  /** The first pass of the loop when a packet is due, and the rest of it. */
  lemma DecodeUnfold<X>(s: State<X>, src: Source, next: u32) returns (s': State<X>, src': Source, h: Handled<X>)
    requires s.packets != [] && s.packets[0].playout <= next
    ensures s' == Taken(GetStep(s, next)) && (src', h) == Handle(src, s.packets[0], GetStep(s, next).err == EAGAIN)
    ensures s'.packets == s.packets[1..] && s'.seqGet == s.packets[0].hdr.seqno
    ensures s'.refs == DropRef(s.refs, s.packets[0].mem)
    ensures src' == src.(pseq := LostCalc(src.pseq, s.packets[0].hdr.seqno).0,
                         changed := src.changed && !s.packets[0].hdr.extOk)
    ensures h == Handled(s.packets[0], NonNegative(LostCalc(src.pseq, s.packets[0].hdr.seqno).1),
                         |s.packets| > 1 && s.packets[1].playout <= next,
                         s.packets[0].hdr.extOk, src.changed && s.packets[0].hdr.extOk)
    ensures DecodeDue(s, src, next) == After([h], DecodeDue(s', src', next))
  {
    var r := GetStep(s, next);
    TakenShape(s, next);
    s' := Taken(r);
    var p := Handle(src, s.packets[0], r.err == EAGAIN);
    src', h := p.0, p.1;
  }

  /** The first `n` packets of the buffer were handled, in order, and released. */
  ghost predicate DuePrefix<X>(d: Decoded<X>, s: State<X>, src: Source, n: nat)
    requires n <= |s.packets|
  {
    && |d.handled| == n && d.s.packets == s.packets[n..]
    && (forall k :: 0 <= k < n ==> HandledAt(d.handled[k], src, s.packets, n, k))
    && d.src == src.(pseq := PseqAt(src.pseq, s.packets, n), changed := Pending(src.changed, s.packets, n))
    && d.s.seqGet == (if n == 0 then s.seqGet else s.packets[n-1].hdr.seqno)
    && d.s.refs == DropAll(s.refs, s.packets[..n])
  }

  lemma DuePrefixCons<X>(e: Decoded<X>, s: State<X>, src: Source, s': State<X>, src': Source, h: Handled<X>, n: nat)
    requires 0 < n <= |s.packets| && s'.packets == s.packets[1..] && s'.seqGet == s.packets[0].hdr.seqno
    requires s'.refs == DropRef(s.refs, s.packets[0].mem)
    requires src' == src.(pseq := LostCalc(src.pseq, s.packets[0].hdr.seqno).0,
                          changed := src.changed && !s.packets[0].hdr.extOk)
    requires HandledAt(h, src, s.packets, n, 0) && DuePrefix(e, s', src', n - 1)
    ensures DuePrefix(After([h], e), s, src, n)
  {
    PseqAtTail(src.pseq, s.packets, n);
    PendingTail(src.changed, s.packets, n);
    assert s.packets[..n][1..] == s'.packets[..n-1];
    forall k | 0 <= k < n ensures HandledAt(([h] + e.handled)[k], src, s.packets, n, k) {
      if k > 0 {
        HandledShift(e.handled[k-1], src, s.packets, n, k);
      }
    }
  }

  lemma NothingDue<X>(s: State<X>, src: Source, next: u32)
    requires DueCount(s.packets, next) == 0
    ensures DuePrefix(DecodeDue(s, src, next), s, src, 0)
  {
  }

  /**
   * Draining delivers, in order, exactly the longest prefix of due packets;
   * `drop` is set for all of them but the last, a new source is announced with
   * the first that is passed on, each loss is counted against the packet before, and each payload
   * reference is given back.
   */
  lemma {:induction false} DrainIsDuePrefix<X>(s: State<X>, src: Source, next: u32)
    ensures DuePrefix(DecodeDue(s, src, next), s, src, DueCount(s.packets, next))
    decreases |s.packets|
  {
    var n := DueCount(s.packets, next);
    if n > 0 {
      var s', src', h := DecodeUnfold(s, src, next);
      DrainIsDuePrefix(s', src', next);
      DuePrefixCons(DecodeDue(s', src', next), s, src, s', src', h, n);
    } else {
      NothingDue(s, src, next);
    }
  }

  /** What is left is not due. */
  lemma DrainedHead<X>(s: State<X>, src: Source, next: u32)
    ensures var d := DecodeDue(s, src, next);
      && |d.handled| == DueCount(s.packets, next)
      && (d.s.packets != [] ==> s.packets != [] && d.s.packets[0].playout > next)
  {
    DrainIsDuePrefix(s, src, next);
  }

  function LostIn<X>(hs: seq<Handled<X>>): nat {
    if hs == [] then 0 else hs[0].lostc + LostIn(hs[1..])
  }

  /** Buffer and receiver stand at the last packet handled, and the losses counted fit the distance from `base`. */
  ghost predicate InStep(d: Decoded<int>, base: int) {
    var last := if d.handled == [] then base else d.handled[|d.handled| - 1].pkt.hdr.x;
    d.src.pseq == d.s.seqGet == W16(last) && LostIn(d.handled) + |d.handled| <= last - base
  }

  lemma InStepCons(d: Decoded<int>, h: Handled<int>, base: int)
    requires InStep(d, h.pkt.hdr.x) && h.lostc < h.pkt.hdr.x - base
    ensures InStep(After([h], d), base)
  {
    assert ([h] + d.handled)[1..] == d.handled;
  }

  /**
   * Draining a sorted list from a receiver in step with the buffer keeps them
   * in step; losses and packets together never exceed the distance from the
   * last delivery `base` to the new one.
   */
  lemma {:induction false} DrainInStep(s: State<int>, src: Source, next: u32, base: int)
    requires JbufOrder.Sorted(s.packets, base) && src.pseq == s.seqGet == W16(base)
    ensures InStep(DecodeDue(s, src, next), base)
    decreases |s.packets|
  {
    if s.packets != [] && s.packets[0].playout <= next {
      var u := s.packets[0].hdr.x;
      ForwardStep(base, u);
      var s', src', h := DecodeUnfold(s, src, next);
      JbufOrder.TailSorted(s.packets, base);
      DrainInStep(s', src', next, u);
      InStepCons(DecodeDue(s', src', next), h, base);
    }
  }

  /** The set-up part of `rtprecv_decode`, with `rtprecv_resync`. */
  function SetUp<X>(s: Source, h: Header<X>): Source {
    if !s.pseqSet then s.(ssrc := h.ssrc, pseq := FirstPseq(h.seqno), pseqSet := true)
    else if h.ssrc != s.ssrc then Source(h.ssrc, ResyncPseq(h.seqno), true, true)
    else s
  }

  predicate ChangesSource<X>(s: Source, h: Header<X>) { s.pseqSet && h.ssrc != s.ssrc }

  /** The receiver with its jitter buffer. */
  datatype Rx<X> = Rx(src: Source, s: State<X>)

  /** The buffer that a packet finds: a change of source empties it. */
  function Met<X>(r: Rx<X>, h: Header<X>): (s: State<X>)
    requires Sized(r.s)
    ensures Sized(s) && s.cfg == r.s.cfg
  {
    FreeAllSize(r.s.packets);
    if ChangesSource(r.src, h) then FlushStep(r.s) else r.s
  }

  /** `rtprecv_decode` for an RTP packet whose payload type is handled (`ptOk`) or fails. */
  function DecodeStep<X>(r: Rx<X>, h: Header<X>, m: Option<Mem>, c: Clock, ptOk: bool): (r': Rx<X>)
    requires Sized(r.s)
    ensures Sized(r'.s) && r'.s.cfg == r.s.cfg
  {
    Rx(SetUp(r.src, h), if ptOk then PutStep(Met(r, h), h, m, c).s else Met(r, h))
  }

  function FramesStep<X>(r: Rx<X>, next: u32): Rx<X> {
    var d := DecodeDue(r.s, r.src, next);
    Rx(d.src, d.s)
  }

  class RtpReceiver<X> {
    /** Only a receiver of audio, or of video with a buffer configured, has one. */
    const jbuf: Jbuf?<X>
    var enabled: bool
    var ssrc: u32
    var pseq: u32
    var pseqSet: bool
    var ssrcChanged: bool
    /** The delay in ms with which the decode timer was started last. */
    var timer: int

    function Known(): Source
      reads this
    {
      Source(ssrc, pseq, pseqSet, ssrcChanged)
    }

    function View(): Rx<X>
      requires jbuf != null
      reads this, jbuf
    {
      Rx(Known(), jbuf.View())
    }

    constructor (jbuf: Jbuf?<X>)
      ensures this.jbuf == jbuf && Known() == NO_SOURCE && enabled
    {
      this.jbuf := jbuf;
      enabled, ssrc, pseq, pseqSet, ssrcChanged, timer := true, 0, NO_SEQ, false, false, 0;
    }

    method LostCount(seqno: u16) returns (lostc: int)
      modifies this`pseq
      ensures (pseq, lostc) == LostCalc(old(pseq), seqno)
    {
      var delta := W16(seqno - pseq);
      if pseq == NO_SEQ {
        lostc := 0;
      } else if delta == 0 {
        return -1;
      } else if delta < JUMP {
        lostc := delta - 1;
      } else if delta < BACKWARD {
        lostc := 0;
      } else {
        return -2;
      }
      pseq := seqno;
    }

    /** The set-up for a packet, with `rtprecv_resync` when its source is a new one. */
    method SetUpFor(h: Header<X>)
      requires jbuf != null ==> Sized(jbuf.View())
      modifies this, jbuf
      ensures Known() == SetUp(old(Known()), h) && enabled == old(enabled) && timer == old(timer)
      ensures jbuf != null ==> jbuf.View() == Met(old(View()), h)
    {
      if !pseqSet {
        ssrc := h.ssrc;
        pseq := W32(h.seqno - 1);
        pseqSet := true;
      } else if h.ssrc != ssrc {
        if jbuf != null {
          jbuf.Flush();
        }
        ssrc := h.ssrc;
        pseq := W16(h.seqno - 1);
        ssrcChanged := true;
      }
    }

    /** The handler call, which also reports a new source once. */
    method Announced() returns (newSource: bool)
      modifies this`ssrcChanged
      ensures newSource == old(ssrcChanged) && !ssrcChanged
    {
      newSource := ssrcChanged;
      if ssrcChanged {
        ssrcChanged := false;
      }
    }

    /**
     * `rtprecv_decode`.  `rtcp` says that the packet is an RTCP packet on the
     * RTP port.  Without a jitter buffer the packet goes to the handler at once,
     * unless its header extension is corrupt, and the result says whether it
     * announces a new source.
     */
    method Decode(h: Header<X>, m: Option<Mem>, c: Clock, rtcp: bool, ptOk: bool)
      returns (err: Err, direct: Option<bool>)
      requires jbuf != null ==> Sized(jbuf.View())
      modifies this, jbuf
      ensures enabled == old(enabled) && timer == old(timer)
      ensures !enabled || rtcp ==> Known() == old(Known()) && direct == None
      ensures enabled && !rtcp ==>
        var src := SetUp(old(Known()), h);
        && direct == (if jbuf == null && ptOk && h.extOk then Some(src.changed) else None)
        && Known() == src.(changed := src.changed && direct == None)
      ensures jbuf != null && (!enabled || rtcp) ==> jbuf.View() == old(jbuf.View())
      ensures jbuf != null && enabled && !rtcp ==>
        && View() == DecodeStep(old(View()), h, m, c, ptOk)
        && (ptOk ==> err == PutStep(Met(old(View()), h), h, m, c).err)
    {
      err, direct := Ok, None;
      if !enabled || rtcp {
        return;
      }
      SetUpFor(h);
      if !ptOk {
        return;
      }
      if jbuf != null {
        var e, nack := jbuf.Put(h, m, c);
        err := e;
      } else if h.extOk {
        var newSource := Announced();
        direct := Some(newSource);
      }
    }

    /** All that draining changes, as of now. */
    ghost function Rest(next: u32): Decoded<X>
      requires jbuf != null
      reads this, jbuf
    {
      DecodeDue(jbuf.View(), Known(), next)
    }

    /** The loss count, the handler call and the release for a packet taken from the buffer. */
    method HandleTaken(f: Packet<X>, drop: bool) returns (h: Handled<X>)
      requires jbuf != null
      modifies this`pseq, this`ssrcChanged, jbuf`refs
      ensures (Known(), h) == Handle(old(Known()), f, drop)
      ensures jbuf.refs == DropRef(old(jbuf.refs), f.mem)
    {
      var lostc := LostCount(f.hdr.seqno);
      var newSource := false;
      if f.hdr.extOk {
        newSource := Announced();
      }
      h := Handled(f, if lostc > 0 then lostc else 0, drop, f.hdr.extOk, newSource);
      jbuf.Unref(f.mem);
    }

    /** One pass of the loop in `decode_frames`: the head packet, if it is due, goes to the handler. */
    method HandleNext(next: u32) returns (out: Option<Handled<X>>)
      requires jbuf != null
      modifies this`pseq, this`ssrcChanged, jbuf
      ensures out.None? ==> old(Rest(next)) == Decoded([], jbuf.View(), Known())
      ensures out.Some? ==> |jbuf.packetl| == old(|jbuf.packetl|) - 1
      ensures out.Some? ==> old(Rest(next)) == After([out.value], Rest(next))
    {
      ghost var s, src := jbuf.View(), Known();
      var err, got := jbuf.Get(next);
      if err != Ok && err != EAGAIN {
        return None;
      }
      var h := HandleTaken(got.value, err == EAGAIN);
      out := Some(h);
      ghost var s', src', h' := DecodeUnfold(s, src, next);
      assert jbuf.View() == s' && Known() == src' && h == h';
    }

    /** The loop of `decode_frames`: at most one pass more than there are packets. */
    method DrainDue(next: u32) returns (handled: seq<Handled<X>>)
      requires jbuf != null && jbuf.n == |jbuf.packetl|
      modifies this`pseq, this`ssrcChanged, jbuf
      ensures Decoded(handled, jbuf.View(), Known()) == old(Rest(next))
    {
      handled := [];
      AfterEnds([], Rest(next));
      var n: int := jbuf.n;
      while true
        invariant n == |jbuf.packetl|
        invariant old(Rest(next)) == After(handled, Rest(next))
        decreases n
      {
        ghost var rest := Rest(next);
        var out := HandleNext(next);
        if out.None? {
          AfterEnds(handled, rest);
          break;
        }
        AfterSnoc(handled, out.value, Rest(next));
        handled := handled + [out.value];
        if n == 0 {
          break;
        }
        n := n - 1;
      }
    }

    /**
     * `decode_frames` at a playout clock that stands still: delivers the
     * maximal prefix of due packets and starts the timer with a positive delay.
     */
    method DecodeFrames(next: u32) returns (handled: seq<Handled<X>>)
      requires jbuf != null ==> jbuf.n == |jbuf.packetl| && (jbuf.packetl != [] ==> jbuf.cfg.srate > 0)
      modifies this`pseq, this`ssrcChanged, this`timer, jbuf
      ensures jbuf == null ==> handled == [] && Known() == old(Known()) && timer == old(timer)
      ensures jbuf != null ==>
        && View() == FramesStep(old(View()), next)
        && handled == DecodeDue(old(jbuf.View()), old(Known()), next).handled
        && |handled| == DueCount(old(jbuf.packetl), next)
        && timer >= 1
    {
      if jbuf == null {
        return [];
      }
      DrainedHead(jbuf.View(), Known(), next);
      handled := DrainDue(next);
      StartTimer(next);
    }

    /** `rtprecv_set_ssrc`: the numbers and the buffer stay as they are. */
    method SetSsrc(ssrc: u32)
      modifies this`ssrc
      ensures Known() == old(Known()).(ssrc := ssrc)
    {
      this.ssrc := ssrc;
    }

    /** `rtprecv_flush`: the numbers of the source stay as they are. */
    method FlushBuffer()
      modifies jbuf
      ensures jbuf != null ==> jbuf.View() == FlushStep(old(jbuf.View()))
    {
      if jbuf != null {
        jbuf.Flush();
      }
    }

    /** The timer for the next packet, none being due now. */
    method StartTimer(current: u32)
      requires jbuf != null && (jbuf.packetl != [] ==> jbuf.cfg.srate > 0 && jbuf.packetl[0].playout > current)
      modifies this`timer
      ensures timer >= 1
    {
      var delay := jbuf.NextPlayTime(current);
      timer := match delay
        case Wait(ms) => if ms < 0 then FALLBACK_MS else ms
        case NoPacket => FALLBACK_MS
        case OutOfOrder => FALLBACK_MS;
    }
  }
}
