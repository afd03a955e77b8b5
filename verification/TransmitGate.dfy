/**
 * The transmit gate of src/stream.c: when RTP may leave.  The list of a call's
 * streams is a state machine over the steps that enable, update, connect,
 * secure and close streams; in every run media is sent only while the stream
 * lives, its NAT traversal is through and its encryption is up.
 */
module TransmitGate {

  datatype Dir = Inactive | RecvOnly | SendOnly | SendRecv

  predicate Sending(d: Dir) { d.SendOnly? || d.SendRecv? }

  datatype Bundle = Unbundled | Base | Mux

  /** A module that a stream may have, and whether the stream must wait for it. */
  datatype Module = Absent | Present(waits: bool)

  datatype Stream = Stream(
    mnat: Module, menc: Module, mencs: bool, terminated: bool, hold: bool, mnatConnected: bool,
    mencSecure: bool, bundle: Bundle, enabled: bool, ptEnc: int, raddr: bool, dir: Dir, ldir: Dir, rdir: Dir)

  predicate Waits(m: Module) { m.Present? && m.waits }

  /** `mnat_ready`. */
  predicate MnatReady(s: Stream) { Waits(s.mnat) ==> s.mnatConnected }

  predicate Secured(s: Stream) { Waits(s.menc) ==> s.mencSecure }

  /** `stream_is_ready`. */
  predicate Ready(s: Stream) {
    MnatReady(s) && Secured(s) && s.raddr && !s.dir.Inactive? && !s.terminated
  }

  /** `stream_enable_tx`; a stream that is not ready keeps its state. */
  function EnableTx(s: Stream, enable: bool): Stream {
    if !enable then s.(enabled := false)
    else if Ready(s) && Sending(s.rdir) && !s.ldir.RecvOnly? && !s.ldir.Inactive? then s.(enabled := true)
    else s
  }

  /** What a bundle's base stream passes on to the streams multiplexed on it. */
  datatype Passed = Addr(known: bool) | Connected | Secure(secure: bool)

  function PassTo(s: Stream, p: Passed): Stream {
    if !s.bundle.Mux? then s else
    match p
    case Addr(b) => s.(raddr := b)
    case Connected => s.(mnatConnected := true)
    case Secure(b) => s.(mencSecure := b)
  }

  function PassOn(ss: seq<Stream>, p: Passed): (r: seq<Stream>)
    ensures |r| == |ss|
  {
    seq(|ss|, i requires 0 <= i < |ss| => PassTo(ss[i], p))
  }

  /** The steps of the state machine, each on one stream of the list. */
  datatype Op =
    | Enable(i: nat, enable: bool)
    | Close(i: nat)
    | MnatConnected(i: nat, addr: bool)
    | SetSecure(i: nat, secure: bool)
    | Update(i: nat, pt: int, hasMedia: bool, addr: bool, mencOk: bool)
    | SetHold(i: nat, hold: bool)
    | Negotiate(i: nat, dir: Dir, ldir: Dir, rdir: Dir)
    | EnableBundle(i: nat, state: Bundle)

  /** `stream_mnat_connected`. */
  function MnatStep(ss: seq<Stream>, i: nat, addr: bool): seq<Stream>
    requires i < |ss|
  {
    if ss[i].bundle.Mux? then ss else
    var s1 := ss[i := ss[i].(raddr := addr, mnatConnected := true)];
    var s2 := if ss[i].bundle.Base? then PassOn(PassOn(s1, Addr(addr)), Connected) else s1;
    s2[i := EnableTx(s2[i], true)]
  }

  /** `stream_set_secure`. */
  function SecureStep(ss: seq<Stream>, i: nat, secure: bool): seq<Stream>
    requires i < |ss|
  {
    var s1 := ss[i := ss[i].(mencSecure := secure)];
    var s2 := if ss[i].bundle.Base? then PassOn(s1, Secure(secure)) else s1;
    s2[i := EnableTx(s2[i], true)]
  }

  /** The media part of `stream_update`, for a stream that has media. */
  function Remote(s: Stream, addr: bool): Stream {
    if s.bundle.Mux? then s.(mnat := Absent) else s.(raddr := addr)
  }

  /** The same, passed on by a base stream. */
  function WithRemote(ss: seq<Stream>, i: nat, addr: bool): (r: seq<Stream>)
    requires i < |ss|
    ensures |r| == |ss|
  {
    var s1 := ss[i := Remote(ss[i], addr)];
    if ss[i].bundle.Base? then PassOn(s1, Addr(addr)) else s1
  }

  /** `stream_update`. */
  function UpdateStep(ss: seq<Stream>, i: nat, pt: int, hasMedia: bool, addr: bool, mencOk: bool): seq<Stream>
    requires i < |ss|
  {
    var s1 := ss[i := ss[i].(enabled := false, ptEnc := pt)];
    var s2 := if hasMedia then WithRemote(s1, i, addr) else s1;
    if s2[i].mencs && MnatReady(s2[i]) && !mencOk then s2 else s2[i := EnableTx(s2[i], true)]
  }

  function Detached(s: Stream, state: Bundle): Stream {
    if state.Mux? then s.(bundle := state, mnat := Absent, menc := Absent, mencs := false) else s.(bundle := state)
  }

  function Step(ss: seq<Stream>, op: Op): (r: seq<Stream>)
    ensures |r| == |ss|
  {
    if op.i >= |ss| then ss else
    var s := ss[op.i];
    match op
    case Enable(i, enable) => ss[i := EnableTx(s, enable)]
    case Close(i) => ss[i := s.(terminated := true, enabled := false)]
    case MnatConnected(i, addr) => MnatStep(ss, i, addr)
    case SetSecure(i, secure) => SecureStep(ss, i, secure)
    case Update(i, pt, hasMedia, addr, mencOk) => UpdateStep(ss, i, pt, hasMedia, addr, mencOk)
    case SetHold(i, hold) => ss[i := s.(hold := hold)]
    case Negotiate(i, dir, ldir, rdir) => ss[i := s.(dir := dir, ldir := ldir, rdir := rdir)]
    case EnableBundle(i, state) => ss[i := Detached(s, state)]
  }

  /** `stream_send` reaches `rtp_send`. */
  predicate Sends(s: Stream, pt: int) { s.enabled && !s.hold && (pt >= 0 || s.ptEnc >= 0) }

  // ---------------------------------------------------------------- safety

  /** What must hold of a stream that sends. */
  predicate Open(s: Stream) { !s.terminated && MnatReady(s) && Secured(s) }

  predicate Gated(s: Stream) { s.enabled ==> Open(s) }

  predicate AllGated(ss: seq<Stream>) { forall i :: 0 <= i < |ss| ==> Gated(ss[i]) }

  lemma PassOnGated(ss: seq<Stream>, p: Passed)
    requires AllGated(ss) && p != Secure(false)
    ensures AllGated(PassOn(ss, p))
  {
  }

  lemma EnabledGated(ss: seq<Stream>, i: nat)
    requires AllGated(ss) && i < |ss|
    ensures AllGated(ss[i := EnableTx(ss[i], true)])
  {
  }

  lemma MnatGated(ss: seq<Stream>, i: nat, addr: bool)
    requires AllGated(ss) && i < |ss|
    ensures AllGated(MnatStep(ss, i, addr))
  {
    var s1 := ss[i := ss[i].(raddr := addr, mnatConnected := true)];
    PassOnGated(s1, Addr(addr));
    PassOnGated(PassOn(s1, Addr(addr)), Connected);
    EnabledGated(if ss[i].bundle.Base? then PassOn(PassOn(s1, Addr(addr)), Connected) else s1, i);
  }

  lemma SecureGated(ss: seq<Stream>, i: nat)
    requires AllGated(ss) && i < |ss|
    ensures AllGated(SecureStep(ss, i, true))
  {
    var s1 := ss[i := ss[i].(mencSecure := true)];
    PassOnGated(s1, Secure(true));
    EnabledGated(if ss[i].bundle.Base? then PassOn(s1, Secure(true)) else s1, i);
  }

  lemma UpdateGated(ss: seq<Stream>, i: nat, pt: int, hasMedia: bool, addr: bool, mencOk: bool)
    requires AllGated(ss) && i < |ss|
    ensures AllGated(UpdateStep(ss, i, pt, hasMedia, addr, mencOk))
  {
    var s1 := ss[i := ss[i].(enabled := false, ptEnc := pt)];
    PassOnGated(s1[i := Remote(s1[i], addr)], Addr(addr));
    EnabledGated(if hasMedia then WithRemote(s1, i, addr) else s1, i);
  }

  /** Every step keeps the gate, as long as no stream is declared insecure. */
  lemma StepGated(ss: seq<Stream>, op: Op)
    requires AllGated(ss) && (op.SetSecure? ==> op.secure)
    ensures AllGated(Step(ss, op))
  {
    if op.i < |ss| {
      match op
      case MnatConnected(i, addr) => MnatGated(ss, i, addr);
      case SetSecure(i, secure) => SecureGated(ss, i);
      case Update(i, pt, hasMedia, addr, mencOk) => UpdateGated(ss, i, pt, hasMedia, addr, mencOk);
      case _ =>
    }
  }

  /** The streams that a change of the secure flag on stream `i` reaches. */
  predicate Reached(ss: seq<Stream>, i: nat, j: nat)
    requires i < |ss| && j < |ss|
  {
    j == i || (ss[i].bundle.Base? && ss[j].bundle.Mux?)
  }

  /**
   * Declaring a stream insecure does not disable it: the gate survives if and
   * only if no stream that is reached is enabled and waits for encryption.
   */
  lemma InsecureKeepsGateIff(ss: seq<Stream>, i: nat)
    requires AllGated(ss) && i < |ss|
    ensures AllGated(Step(ss, SetSecure(i, false))) <==>
      forall j :: 0 <= j < |ss| && Reached(ss, i, j) ==> !(ss[j].enabled && Waits(ss[j].menc))
  {
    var r := Step(ss, SetSecure(i, false));
    forall j | 0 <= j < |ss|
      ensures Gated(r[j]) <==> (Reached(ss, i, j) ==> !(ss[j].enabled && Waits(ss[j].menc)))
    {
      assert Gated(ss[j]);
      if j == i {
        assert ss[i].bundle.Base? ==> !ss[i].bundle.Mux?;
      }
    }
  }

  /** A DTLS-SRTP stream that was sending and is declared insecure goes on sending. */
  lemma InsecureStillSends()
    ensures
      var s := Stream(Absent, Present(true), true, false, false, false, true, Unbundled, true, 0, true,
                      SendRecv, SendRecv, SendRecv);
      var r := Step([s], SetSecure(0, false));
      Gated(s) && Sends(r[0], 0) && !Secured(r[0])
  {
  }

  // ---------------------------------------------------------------- runs

  function Run(ss: seq<Stream>, ops: seq<Op>): (r: seq<Stream>)
    ensures |r| == |ss|
    decreases |ops|
  {
    if ops == [] then ss else Step(Run(ss, ops[..|ops|-1]), ops[|ops|-1])
  }

  /** Streams as `stream_alloc` makes them. */
  predicate Fresh(ss: seq<Stream>) {
    forall i :: 0 <= i < |ss| ==> !ss[i].enabled && !ss[i].terminated && !ss[i].mnatConnected && !ss[i].mencSecure
  }

  predicate OnlySecured(ops: seq<Op>) {
    forall k :: 0 <= k < |ops| && ops[k].SetSecure? ==> ops[k].secure
  }

  /**
   * In every run in which streams are only ever declared secure, a stream that
   * sends is not terminated, its NAT traversal has connected if it must wait
   * for it, and its encryption is up if it must wait for that.
   */
  lemma {:induction false} SendsOnlyWhenOpen(ss: seq<Stream>, ops: seq<Op>, i: nat, pt: int)
    requires Fresh(ss) && OnlySecured(ops) && i < |ss|
    ensures AllGated(Run(ss, ops))
    ensures Sends(Run(ss, ops)[i], pt) ==> Open(Run(ss, ops)[i])
    decreases |ops|
  {
    if ops != [] {
      SendsOnlyWhenOpen(ss, ops[..|ops|-1], i, pt);
      StepGated(Run(ss, ops[..|ops|-1]), ops[|ops|-1]);
    }
  }

  /** Once terminated and disabled, a stream stays so. */
  predicate Dead(s: Stream) { s.terminated && !s.enabled }

  lemma MnatDead(ss: seq<Stream>, k: nat, addr: bool, i: nat)
    requires k < |ss| && i < |ss| && Dead(ss[i])
    ensures |MnatStep(ss, k, addr)| == |ss| && Dead(MnatStep(ss, k, addr)[i])
  {
  }

  lemma UpdateDead(ss: seq<Stream>, k: nat, pt: int, hasMedia: bool, addr: bool, mencOk: bool, i: nat)
    requires k < |ss| && i < |ss| && Dead(ss[i])
    ensures var r := UpdateStep(ss, k, pt, hasMedia, addr, mencOk); |r| == |ss| && Dead(r[i])
  {
    var s1 := ss[k := ss[k].(enabled := false, ptEnc := pt)];
    assert Dead(s1[i]);
    assert Dead(WithRemote(s1, k, addr)[i]);
  }

  lemma StepDead(ss: seq<Stream>, op: Op, i: nat)
    requires i < |ss| && Dead(ss[i])
    ensures Dead(Step(ss, op)[i])
  {
    if op.i < |ss| {
      match op
      case MnatConnected(k, addr) => MnatDead(ss, k, addr, i);
      case Update(k, pt, hasMedia, addr, mencOk) => UpdateDead(ss, k, pt, hasMedia, addr, mencOk, i);
      case _ =>
    }
  }

  lemma {:induction false} RunDead(ss: seq<Stream>, ops: seq<Op>, i: nat)
    requires i < |ss| && Dead(ss[i])
    ensures Dead(Run(ss, ops)[i])
    decreases |ops|
  {
    if ops != [] {
      RunDead(ss, ops[..|ops|-1], i);
      StepDead(Run(ss, ops[..|ops|-1]), ops[|ops|-1], i);
    }
  }

  /** After `stream_close` a stream never sends again, whatever happens before and after, even without encryption. */
  lemma ClosedNeverSends(ss: seq<Stream>, before: seq<Op>, after: seq<Op>, i: nat, pt: int)
    requires i < |ss|
    ensures !Sends(Run(Step(Run(ss, before), Close(i)), after)[i], pt)
  {
    RunDead(Step(Run(ss, before), Close(i)), after, i);
  }

  // ---------------------------------------------------------------- the stream list, updated in place

  class StreamList {
    var streams: seq<Stream>

    constructor (ss: seq<Stream>)
      ensures streams == ss
    {
      streams := ss;
    }

    /** `stream_enable_tx`. */
    method EnableTransmit(i: nat, enable: bool) returns (ok: bool)
      requires i < |streams|
      modifies this
      ensures streams == old(streams)[i := EnableTx(old(streams)[i], enable)]
      ensures ok <==> !enable || (Ready(old(streams)[i]) && streams[i].enabled && Sending(streams[i].rdir)
                                  && Sending(streams[i].ldir))
    {
      var s := streams[i];
      if !enable {
        streams := streams[i := s.(enabled := false)];
        return true;
      }
      if !Ready(s) {
        return false;
      }
      if !Sending(s.rdir) {
        return false;
      }
      if s.ldir == RecvOnly || s.ldir == Inactive {
        return false;
      }
      streams := streams[i := s.(enabled := true)];
      return true;
    }

    /** The loops over the streams multiplexed on a base stream. */
    method PassToMuxed(p: Passed)
      modifies this
      ensures streams == PassOn(old(streams), p)
    {
      for j := 0 to |streams|
        invariant |streams| == |old(streams)|
        invariant forall k :: 0 <= k < j ==> streams[k] == PassTo(old(streams)[k], p)
        invariant forall k :: j <= k < |streams| ==> streams[k] == old(streams)[k]
      {
        var x := streams[j];
        if x.bundle.Mux? {
          x := match p
            case Addr(b) => x.(raddr := b)
            case Connected => x.(mnatConnected := true)
            case Secure(b) => x.(mencSecure := b);
          streams := streams[j := x];
        }
      }
    }

    /** `stream_mnat_connected`. */
    method OnMnatConnected(i: nat, addr: bool)
      requires i < |streams|
      modifies this
      ensures streams == Step(old(streams), MnatConnected(i, addr))
    {
      var bundle := streams[i].bundle;
      if bundle.Mux? {
        return;
      }
      streams := streams[i := streams[i].(raddr := addr)];
      streams := streams[i := streams[i].(mnatConnected := true)];
      assert streams == old(streams)[i := old(streams)[i].(raddr := addr, mnatConnected := true)];
      if bundle.Base? {
        PassToMuxed(Addr(addr));
        PassToMuxed(Connected);
      }
      var _ := EnableTransmit(i, true);
    }

    /** `stream_set_secure`. */
    method DeclareSecure(i: nat, secure: bool)
      requires i < |streams|
      modifies this
      ensures streams == Step(old(streams), SetSecure(i, secure))
    {
      var bundle := streams[i].bundle;
      streams := streams[i := streams[i].(mencSecure := secure)];
      if bundle.Base? {
        PassToMuxed(Secure(secure));
      }
      var _ := EnableTransmit(i, true);
    }

    /** `stream_update`; `mencOk` says that media encryption starts without an error. */
    method UpdateStream(i: nat, pt: int, hasMedia: bool, addr: bool, mencOk: bool)
      requires i < |streams|
      modifies this
      ensures streams == Step(old(streams), Update(i, pt, hasMedia, addr, mencOk))
    {
      var _ := EnableTransmit(i, false);
      streams := streams[i := streams[i].(ptEnc := pt)];
      assert streams == old(streams)[i := old(streams)[i].(enabled := false, ptEnc := pt)];
      if hasMedia {
        SetRemote(i, addr);
      }
      if streams[i].mencs && MnatReady(streams[i]) && !mencOk {
        return;
      }
      var _ := EnableTransmit(i, true);
    }

    /** The remote address of a stream that has media, passed on by a base stream. */
    method SetRemote(i: nat, addr: bool)
      requires i < |streams|
      modifies this
      ensures streams == WithRemote(old(streams), i, addr)
    {
      var bundle := streams[i].bundle;
      if bundle.Mux? {
        streams := streams[i := streams[i].(mnat := Absent)];
      } else {
        streams := streams[i := streams[i].(raddr := addr)];
      }
      if bundle.Base? {
        PassToMuxed(Addr(addr));
      }
    }

    /** `stream_close`. */
    method CloseStream(i: nat)
      requires i < |streams|
      modifies this
      ensures streams == Step(old(streams), Close(i))
    {
      streams := streams[i := streams[i].(terminated := true)];
      var _ := EnableTransmit(i, false);
    }

    /** `stream_send`: whether the packet goes to `rtp_send`. */
    method Send(i: nat, pt: int) returns (sent: bool)
      requires i < |streams|
      ensures sent <==> Sends(streams[i], pt)
    {
      var s := streams[i];
      if !s.enabled || s.hold {
        return false;
      }
      var p := pt;
      if p < 0 {
        p := s.ptEnc;
      }
      return p >= 0;
    }
  }
}
