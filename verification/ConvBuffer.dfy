/**
 * The conversion buffer between two audio units (modules/audiounit/audiounit.c):
 * two memory blocks used in turns, which together behave as one bounded FIFO.
 */
module ConvBuffer {
  import opened Words

  const MAX_NB_FRAMES := 4096

  // ---------------------------------------------------------------- the FIFO

  /** A write of frames, or a read of a number of frames. */
  datatype Op<F> = Write(frames: seq<F>) | Read(n: nat)

  /** A bounded FIFO: the queue after an operation, and what the operation yields (None: refused). */
  function FifoStep<F>(q: seq<F>, op: Op<F>): (seq<F>, Option<seq<F>>) {
    match op
    case Write(frames) => if |q| + |frames| <= MAX_NB_FRAMES then (q + frames, Some([])) else (q, None)
    case Read(n) => if n <= |q| then (q[n..], Some(q[..n])) else (q, None)
  }

  function FifoRun<F>(q: seq<F>, ops: seq<Op<F>>): (r: (seq<F>, seq<Option<seq<F>>>))
    ensures |r.1| == |ops|
    decreases |ops|
  {
    if ops == [] then (q, []) else
    var (q1, out) := FifoStep(q, ops[0]);
    var (q2, outs) := FifoRun(q1, ops[1..]);
    (q2, [out] + outs)
  }

  /** All frames that were read, in order. */
  function AllRead<F>(outs: seq<Option<seq<F>>>): seq<F> {
    if outs == [] then [] else (if outs[0].Some? then outs[0].value else []) + AllRead(outs[1..])
  }

  /** All frames of the writes that were not refused, in order. */
  function AllWritten<F>(ops: seq<Op<F>>, outs: seq<Option<seq<F>>>): seq<F>
    requires |ops| == |outs|
  {
    if ops == [] then []
    else (if ops[0].Write? && outs[0].Some? then ops[0].frames else []) + AllWritten(ops[1..], outs[1..])
  }

  /** No frame is lost, repeated or reordered: what was read and what is left is what was there and was written. */
  lemma {:induction false} FifoConserves<F>(q: seq<F>, ops: seq<Op<F>>)
    ensures var (q', outs) := FifoRun(q, ops);
      AllRead(outs) + q' == q + AllWritten(ops, outs)
    decreases |ops|
  {
    if ops == [] {
      assert [] + q == q + [];
    } else {
      var (q1, out) := FifoStep(q, ops[0]);
      FifoConserves(q1, ops[1..]);
      var (q', outs) := FifoRun(q, ops);
      var rest := FifoRun(q1, ops[1..]).1;
      assert outs[1..] == rest;
      var r, w := AllRead(rest), AllWritten(ops[1..], rest);
      match ops[0]
      case Write(frames) =>
        if out.Some? {
          assert AllRead(outs) + q' == r + q' == (q + frames) + w == q + (frames + w);
        } else {
          assert AllRead(outs) == r && AllWritten(ops, outs) == w;
        }
      case Read(n) =>
        if out.Some? {
          assert AllRead(outs) + q' == q[..n] + (r + q') == q[..n] + (q[n..] + w) == q + w;
          assert AllWritten(ops, outs) == w;
        } else {
          assert AllRead(outs) == r && AllWritten(ops, outs) == w;
        }
    }
  }

  // ---------------------------------------------------------------- the double buffer

  class ConvBuf<F(0)> {
    const mem0: array<F>
    const mem1: array<F>
    var memIdx: nat
    var nbFrames: u32

    ghost predicate Valid()
      reads this
    {
      mem0 != mem1 && mem0.Length == mem1.Length == MAX_NB_FRAMES && memIdx <= 1 && nbFrames <= MAX_NB_FRAMES
    }

    function Active(): array<F>
      reads this
    {
      if memIdx == 0 then mem0 else mem1
    }

    function Idle(): array<F>
      reads this
    {
      if memIdx == 0 then mem1 else mem0
    }

    /** The queue: the first frames of the active block. */
    function Queue(): seq<F>
      requires Valid()
      reads this, mem0, mem1
    {
      Active()[..nbFrames]
    }

    constructor ()
      ensures Valid() && fresh(mem0) && fresh(mem1) && Queue() == []
    {
      mem0 := new F[MAX_NB_FRAMES];
      mem1 := new F[MAX_NB_FRAMES];
      memIdx := 0;
      nbFrames := 0;
    }

    /**
     * `init_data_write`: makes room for `n` frames and returns where they go.
     * The sum is a 32-bit one; unless it wraps, what was queued stays queued.
     */
    method InitDataWrite(n: u32) returns (ok: bool, pos: nat)
      requires Valid()
      modifies this`nbFrames
      ensures Valid() && pos == old(nbFrames)
      ensures ok <==> old(nbFrames) + n <= MAX_NB_FRAMES || old(nbFrames) + n >= 0x1_0000_0000
      ensures nbFrames == if ok then W32(old(nbFrames) + n) else old(nbFrames)
      ensures old(Queue()) <= Queue() <==> !ok || old(nbFrames) + n < 0x1_0000_0000 || n == 0
    {
      pos := nbFrames;
      if W32(nbFrames + n) > MAX_NB_FRAMES {
        return false, pos;
      }
      nbFrames := W32(nbFrames + n);
      ok := true;
    }

    /**
     * A caller's write: room is made, and the caller fills it.  If the 32-bit
     * sum wraps, the caller is told that there is room but would run past the
     * block; the model stops before it does.
     */
    method WriteFrames(frames: seq<F>) returns (ok: bool, overrun: bool)
      requires Valid() && |frames| < 0x1_0000_0000
      modifies this`nbFrames, mem0, mem1
      ensures Valid() && Idle() == old(Idle()) && Idle()[..] == old(Idle()[..])
      ensures overrun <==> old(nbFrames) + |frames| >= 0x1_0000_0000
      ensures overrun ==> ok && nbFrames == old(nbFrames) + |frames| - 0x1_0000_0000
      ensures !overrun ==>
        var (q, out) := FifoStep(old(Queue()), Write(frames)); Queue() == q && ok == out.Some?
    {
      var pos;
      ok, pos := InitDataWrite(|frames|);
      overrun := ok && pos + |frames| > MAX_NB_FRAMES;
      if ok && !overrun {
        var data := Active();
        for i := 0 to |frames|
          modifies data
          invariant forall j :: 0 <= j < pos ==> data[j] == old(Active()[j])
          invariant forall j :: 0 <= j < i ==> data[pos + j] == frames[j]
          invariant Idle()[..] == old(Idle()[..])
        {
          data[pos + i] := frames[i];
        }
      }
    }

    /**
     * `init_data_read`: hands out the active block, whose first frames are the
     * queue's, and goes on with the rest of the queue in the other block.
     */
    method InitDataRead(n: u32) returns (ok: bool, data: array<F>)
      requires Valid()
      modifies this, Idle()
      ensures Valid()
      ensures var (q, out) := FifoStep(old(Queue()), Read(n));
        Queue() == q && ok == out.Some? && (ok ==> data == Idle() && data[..n] == out.value)
      ensures !ok ==> Idle() == old(Idle()) && Idle()[..] == old(Idle()[..])
    {
      data := Active();
      if nbFrames < n {
        return false, data;
      }
      var delta := nbFrames - n;
      var dst := Idle();
      for i := 0 to delta
        modifies dst
        invariant forall j :: 0 <= j < i ==> dst[j] == data[n + j]
        invariant data[..] == old(Active()[..])
      {
        dst[i] := data[n + i];
      }
      memIdx := (memIdx + 1) % 2;
      nbFrames := delta;
      ok := true;
    }
  }

  /** A run from operation `i` on, split after that operation, behind what was yielded before. */
  lemma FifoUnfold<F>(outs: seq<Option<seq<F>>>, q: seq<F>, ops: seq<Op<F>>, i: nat)
    requires i < |ops|
    ensures var p, r := FifoStep(q, ops[i]), FifoRun(q, ops[i..]);
      var rest := FifoRun(p.0, ops[i+1..]);
      && r.0 == rest.0 && r.1 != [] && r.1[0] == p.1
      && outs + r.1 == (outs + [p.1]) + rest.1
  {
    assert ops[i..][1..] == ops[i+1..] && ops[i..][0] == ops[i];
    var p := FifoStep(q, ops[i]);
    var rest := FifoRun(p.0, ops[i+1..]);
    assert outs + ([p.1] + rest.1) == (outs + [p.1]) + rest.1;
  }

  /** The operation passes a 32-bit number of frames. */
  predicate Fits<F>(op: Op<F>) {
    match op
    case Write(frames) => |frames| < 0x1_0000_0000
    case Read(n) => n < 0x1_0000_0000
  }

  /** The operation can make the 32-bit sum wrap. */
  predicate MayOverrun<F>(op: Op<F>) { op.Write? && |op.frames| >= 0x1_0000_0000 - MAX_NB_FRAMES }

  /**
   * Any mix of writes and reads on a new buffer yields what the FIFO yields, up
   * to a write so large that it makes the 32-bit sum wrap.
   */
  method Session<F(0)>(ops: seq<Op<F>>) returns (outs: seq<Option<seq<F>>>)
    requires forall i :: 0 <= i < |ops| ==> Fits(ops[i])
    ensures |outs| <= |ops| && (|outs| < |ops| ==> MayOverrun(ops[|outs|]))
    ensures outs <= FifoRun([], ops).1
  {
    var buf := new ConvBuf<F>();
    outs := [];
    assert ops[0..] == ops;
    for i := 0 to |ops|
      invariant buf.Valid() && fresh(buf) && fresh(buf.mem0) && fresh(buf.mem1) && |outs| == i
      invariant FifoRun([], ops).1 == outs + FifoRun(buf.Queue(), ops[i..]).1
    {
      FifoUnfold(outs, buf.Queue(), ops, i);
      var out, overrun := Apply(buf, ops[i]);
      if overrun {
        return;
      }
      outs := outs + [out];
    }
  }

  /** One operation; what the last read handed out stays as it is unless another read succeeds. */
  method Apply<F(0)>(buf: ConvBuf<F>, op: Op<F>) returns (out: Option<seq<F>>, overrun: bool)
    requires buf.Valid() && Fits(op)
    modifies buf, buf.mem0, buf.mem1
    ensures buf.Valid() && (overrun ==> MayOverrun(op))
    ensures !overrun ==> (buf.Queue(), out) == FifoStep(old(buf.Queue()), op)
    ensures op.Write? || out.None? ==> buf.Idle() == old(buf.Idle()) && buf.Idle()[..] == old(buf.Idle()[..])
  {
    overrun := false;
    match op
    case Write(frames) =>
      var ok, over := buf.WriteFrames(frames);
      overrun := over;
      out := if ok then Some([]) else None;
    case Read(n) =>
      var ok, data := buf.InitDataRead(n);
      out := if ok then Some(data[..n]) else None;
  }

  /** The block that the last read handed out survives any number of writes and of refused reads. */
  method Hold<F(0)>(buf: ConvBuf<F>, ops: seq<Op<F>>)
    requires buf.Valid() && forall i :: 0 <= i < |ops| ==> Fits(ops[i]) && !MayOverrun(ops[i])
    requires forall i :: 0 <= i < |ops| && ops[i].Read? ==> FifoRun(buf.Queue(), ops).1[i].None?
    modifies buf, buf.mem0, buf.mem1
    ensures buf.Valid() && buf.Queue() == FifoRun(old(buf.Queue()), ops).0
    ensures buf.Idle() == old(buf.Idle()) && buf.Idle()[..] == old(buf.Idle()[..])
  {
    ghost var all, outs := FifoRun(buf.Queue(), ops), [];
    assert ops[0..] == ops;
    for i := 0 to |ops|
      invariant buf.Valid() && |outs| == i
      invariant buf.Idle() == old(buf.Idle()) && buf.Idle()[..] == old(buf.Idle()[..])
      invariant all.0 == FifoRun(buf.Queue(), ops[i..]).0
      invariant all.1 == outs + FifoRun(buf.Queue(), ops[i..]).1
    {
      FifoUnfold(outs, buf.Queue(), ops, i);
      var out, overrun := Apply(buf, ops[i]);
      outs := outs + [out];
    }
  }
}
