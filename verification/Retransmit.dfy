/**
 * The retransmission queue of src/video.c: packets that were sent wait for a
 * NACK until their deadline.  In every run the queue holds exactly the packets
 * that were neither resent nor are overdue, and nothing is resent twice.
 */
module Retransmit {
  import opened Words
  import opened JbufModel
  import opened Nack

  /** How long a sent packet is kept, in microseconds. */
  const NACK_QUEUE_USEC := 500 * 1000

  /** A queued packet; `id` is the identity of the queue entry. */
  datatype Entry = Entry(id: nat, seqno: u16, deadline: nat)

  // ---------------------------------------------------------------- cleanup

  /** The cleanup of `vtx_thread`, which stops at the first entry that is not overdue. */
  function Cleanup(q: seq<Entry>, now: nat): seq<Entry> {
    if q != [] && now > q[0].deadline then Cleanup(q[1..], now) else q
  }

  predicate Lives(e: Entry, gone: set<nat>, now: nat) { e.id !in gone && now <= e.deadline }

  /** The entries that are neither gone nor overdue, in order. */
  function Live(q: seq<Entry>, gone: set<nat>, now: nat): seq<Entry> {
    if q == [] then [] else (if Lives(q[0], gone, now) then [q[0]] else []) + Live(q[1..], gone, now)
  }

  lemma {:induction false} LiveMembers(q: seq<Entry>, gone: set<nat>, now: nat)
    ensures forall e :: e in Live(q, gone, now) <==> e in q && Lives(e, gone, now)
  {
    if q != [] {
      LiveMembers(q[1..], gone, now);
      assert q == [q[0]] + q[1..];
    }
  }

  predicate SortedByDeadline(q: seq<Entry>) {
    forall i, j :: 0 <= i < j < |q| ==> q[i].deadline <= q[j].deadline
  }

  lemma {:induction false} AllLive(q: seq<Entry>, gone: set<nat>, now: nat)
    requires forall i :: 0 <= i < |q| ==> Lives(q[i], gone, now)
    ensures Live(q, gone, now) == q
  {
    if q != [] {
      AllLive(q[1..], gone, now);
      assert q == [q[0]] + q[1..];
    }
  }

  /** On a sorted queue the early break loses nothing: cleanup is a full filter. */
  lemma {:induction false} CleanupIsFilter(q: seq<Entry>, now: nat)
    requires SortedByDeadline(q)
    ensures Cleanup(q, now) == Live(q, {}, now)
  {
    if q != [] {
      if now > q[0].deadline {
        CleanupIsFilter(q[1..], now);
      } else {
        AllLive(q, {}, now);
      }
    }
  }

  lemma {:induction false} LiveConcat(a: seq<Entry>, b: seq<Entry>, gone: set<nat>, now: nat)
    ensures Live(a + b, gone, now) == Live(a, gone, now) + Live(b, gone, now)
  {
    if a == [] {
      assert a + b == b;
    } else {
      LiveConcat(a[1..], b, gone, now);
      var head, x, y := if Lives(a[0], gone, now) then [a[0]] else [], Live(a[1..], gone, now), Live(b, gone, now);
      assert (a + b)[0] == a[0] && (a + b)[1..] == a[1..] + b;
      assert Live(a + b, gone, now) == head + (x + y);
      assert head + (x + y) == (head + x) + y;
    }
  }

  function Max(a: nat, b: nat): nat { if a >= b then a else b }

  lemma {:induction false} LiveTwice(q: seq<Entry>, gone1: set<nat>, now1: nat, gone2: set<nat>, now2: nat)
    ensures Live(Live(q, gone1, now1), gone2, now2) == Live(q, gone1 + gone2, Max(now1, now2))
  {
    if q != [] {
      LiveTwice(q[1..], gone1, now1, gone2, now2);
      LiveConcat(if Lives(q[0], gone1, now1) then [q[0]] else [], Live(q[1..], gone1, now1), gone2, now2);
    }
  }

  lemma {:induction false} LiveSorted(q: seq<Entry>, gone: set<nat>, now: nat)
    requires SortedByDeadline(q)
    ensures SortedByDeadline(Live(q, gone, now))
  {
    if q != [] {
      LiveSorted(q[1..], gone, now);
      LiveMembers(q[1..], gone, now);
      var r := Live(q[1..], gone, now);
      forall i | 0 <= i < |r| ensures q[0].deadline <= r[i].deadline {
        assert r[i] in q[1..];
        var j :| 0 <= j < |q[1..]| && q[1..][j] == r[i];
      }
    }
  }

  // ---------------------------------------------------------------- NACK handling

  /** The position of the first entry with number `pid`, or the length of the queue. */
  function Find(q: seq<Entry>, pid: u16): (k: nat)
    ensures k <= |q|
    ensures forall j :: 0 <= j < k ==> q[j].seqno != pid
    ensures k < |q| ==> q[k].seqno == pid
  {
    if q == [] || q[0].seqno == pid then 0 else 1 + Find(q[1..], pid)
  }

  /** The walk from the found entry: the entry `i` places on is resent when its number is the one in the table. */
  function Picked(q: seq<Entry>, table: seq<u16>): seq<Entry> {
    if q == [] || table == [] then []
    else (if q[0].seqno == table[0] then [q[0]] else []) + Picked(q[1..], table[1..])
  }

  function Unpicked(q: seq<Entry>, table: seq<u16>): seq<Entry> {
    if q == [] || table == [] then q
    else (if q[0].seqno == table[0] then [] else [q[0]]) + Unpicked(q[1..], table[1..])
  }

  /** `rtcp_nack_handler`: the packets that are resent, and the queue that is left. */
  function Resent(q: seq<Entry>, g: Gnack): seq<Entry> {
    Picked(q[Find(q, g.pid)..], PidTable(g))
  }

  function Remaining(q: seq<Entry>, g: Gnack): seq<Entry> {
    var k := Find(q, g.pid);
    q[..k] + Unpicked(q[k..], PidTable(g))
  }

  predicate Distinct(q: seq<Entry>) {
    forall i, j :: 0 <= i < j < |q| ==> q[i].id != q[j].id
  }

  function Ids(q: seq<Entry>): set<nat> { set e | e in q :: e.id }

  lemma {:induction false} PickedIn(q: seq<Entry>, table: seq<u16>)
    ensures forall e :: e in Picked(q, table) ==> e in q
  {
    if q != [] && table != [] {
      PickedIn(q[1..], table[1..]);
    }
  }

  /** The walk picks by position. */
  lemma {:induction false} PickedAt(q: seq<Entry>, table: seq<u16>, j: nat)
    requires Distinct(q) && j < |q|
    ensures q[j] in Picked(q, table) <==> j < |table| && q[j].seqno == table[j]
    decreases |q|
  {
    if table != [] {
      PickedIn(q[1..], table[1..]);
      if j > 0 {
        PickedAt(q[1..], table[1..], j - 1);
      }
    }
  }

  /** Live depends on the ids of its own entries only. */
  lemma {:induction false} LiveIgnores(q: seq<Entry>, gone: set<nat>, id: nat, now: nat)
    requires id !in Ids(q)
    ensures Live(q, gone + {id}, now) == Live(q, gone, now)
  {
    if q != [] {
      assert q[0].id in Ids(q) && Ids(q[1..]) <= Ids(q);
      LiveIgnores(q[1..], gone, id, now);
    }
  }

  /** What is resent leaves the queue and nothing else does; the order stays. */
  lemma {:induction false} UnpickedIsLive(q: seq<Entry>, table: seq<u16>)
    requires Distinct(q)
    ensures Unpicked(q, table) == Live(q, Ids(Picked(q, table)), 0)
  {
    if q == [] || table == [] {
      assert Ids(Picked(q, table)) == {};
      AllLive(q, {}, 0);
    } else {
      var rest, picked := q[1..], Picked(q[1..], table[1..]);
      UnpickedIsLive(rest, table[1..]);
      PickedIn(rest, table[1..]);
      assert q[0].id !in Ids(rest);
      if q[0].seqno == table[0] {
        assert Ids(Picked(q, table)) == Ids(picked) + {q[0].id};
        LiveIgnores(rest, Ids(picked), q[0].id, 0);
      } else {
        assert Picked(q, table) == picked;
        assert q[0].id !in Ids(picked);
      }
    }
  }

  lemma DisjointIds(q: seq<Entry>, k: nat, r: seq<Entry>)
    requires Distinct(q) && k <= |q| && forall e :: e in r ==> e in q[k..]
    ensures forall i :: 0 <= i < k ==> q[i].id !in Ids(r)
  {
    forall i, e | 0 <= i < k && e in r ensures q[i].id != e.id {
      var j :| 0 <= j < |q[k..]| && q[k..][j] == e;
      assert q[k + j] == e;
    }
  }

  lemma {:induction false} SplitLive(q: seq<Entry>, k: nat, table: seq<u16>)
    requires Distinct(q) && k <= |q|
    ensures q[..k] + Unpicked(q[k..], table) == Live(q, Ids(Picked(q[k..], table)), 0)
    decreases k
  {
    if k == 0 {
      assert q[0..] == q;
      UnpickedIsLive(q, table);
    } else {
      var rest, back := q[1..], q[k..];
      assert rest[k-1..] == back && q[..k] == [q[0]] + rest[..k-1];
      SplitLive(rest, k - 1, table);
      assert Lives(q[0], Ids(Picked(back, table)), 0) by {
        PickedIn(back, table);
        DisjointIds(q, k, Picked(back, table));
      }
    }
  }

  lemma RemainingIsLive(q: seq<Entry>, g: Gnack)
    requires Distinct(q)
    ensures Remaining(q, g) == Live(q, Ids(Resent(q, g)), 0)
    ensures forall e :: e in Resent(q, g) ==> e in q
  {
    SplitLive(q, Find(q, g.pid), PidTable(g));
    PickedIn(q[Find(q, g.pid)..], PidTable(g));
  }

  // ---------------------------------------------------------------- exactness

  /** The entry at position `j` stands exactly where the walk looks for the number that it has. */
  predicate InPlace(q: seq<Entry>, g: Gnack, j: nat)
    requires j < |q|
  {
    var k := Find(q, g.pid);
    k <= j <= k + BLPSZ && Asks(g, j - k) && q[j].seqno == W16(g.pid + (j - k))
  }

  /** The entry has number 0 and stands where nothing was asked for: the table's default value matches it. */
  predicate Stray(q: seq<Entry>, g: Gnack, j: nat)
    requires j < |q|
  {
    var k := Find(q, g.pid);
    k <= j <= k + BLPSZ && !Asks(g, j - k) && q[j].seqno == 0
  }

  /** In any queue, exactly the entries in place and the strays are resent. */
  lemma ResentExactly(q: seq<Entry>, g: Gnack, j: nat)
    requires Distinct(q) && j < |q|
    ensures q[j] in Resent(q, g) <==> InPlace(q, g, j) || Stray(q, g, j)
  {
    var k, table := Find(q, g.pid), PidTable(g);
    if k <= j {
      PickedAt(q[k..], table, j - k);
    } else {
      PickedIn(q[k..], table);
    }
  }

  /** The handler did its job: it resent exactly the queued entries that were asked for. */
  ghost predicate Served(q: seq<Entry>, g: Gnack) {
    forall j :: 0 <= j < |q| ==> (q[j] in Resent(q, g) <==> q[j].seqno in Requested(g))
  }

  /** From the first requested number on, the queue has no gap, for up to a cycle. */
  predicate Gapless(q: seq<Entry>, g: Gnack) {
    var k := Find(q, g.pid);
    |q| - k <= 0x1_0000 && forall j :: k <= j < |q| ==> q[j].seqno == W16(g.pid + (j - k))
  }

  /** Number 0 is queued within the NACK's reach, and was not asked for. */
  predicate ZeroInReach(q: seq<Entry>, g: Gnack) {
    exists i :: 0 < i <= BLPSZ && Find(q, g.pid) + i < |q| && Unasked(g, i)
  }

  predicate Unasked(g: Gnack, i: nat) { !Asks(g, i) && W16(g.pid + i) == 0 }

  /** From `pid` on, asked for means in place. */
  lemma GaplessAsked(q: seq<Entry>, g: Gnack, j: nat)
    requires Gapless(q, g) && Find(q, g.pid) <= j < |q|
    ensures q[j].seqno in Requested(g) <==> InPlace(q, g, j)
  {
    RequestedIff(g, j - Find(q, g.pid));
  }

  lemma RequestedIff(g: Gnack, d: nat)
    requires d < 0x1_0000
    ensures W16(g.pid + d) in Requested(g) <==> d <= BLPSZ && Asks(g, d)
  {
    if W16(g.pid + d) in Requested(g) {
      var i :| 0 <= i <= BLPSZ && Asks(g, i) && W16(g.pid + d) == W16(g.pid + i);
      SameResidue(g.pid, i, d);
    }
  }

  lemma SameResidue(pid: u16, i: int, d: int)
    requires W16(pid + i) == W16(pid + d) && -0x1_0000 < i - d < 0x1_0000
    ensures i == d
  {
  }

  lemma InPlaceIsRequested(q: seq<Entry>, g: Gnack, j: nat)
    requires j < |q| && InPlace(q, g, j)
    ensures q[j].seqno in Requested(g)
  {
    RequestedIff(g, j - Find(q, g.pid));
  }

  /**
   * In any queue the handler resends exactly the requested packets if and only
   * if each requested one stands in its place (or is number 0 where the table
   * holds its default) and no number 0 is met there that was not requested.
   */
  lemma ServedIff(q: seq<Entry>, g: Gnack)
    requires Distinct(q)
    ensures Served(q, g) <==>
      && (forall j :: 0 <= j < |q| && q[j].seqno in Requested(g) ==> InPlace(q, g, j) || Stray(q, g, j))
      && (forall j :: 0 <= j < |q| && Stray(q, g, j) ==> q[j].seqno in Requested(g))
  {
    forall j | 0 <= j < |q|
      ensures q[j] in Resent(q, g) <==> InPlace(q, g, j) || Stray(q, g, j)
      ensures InPlace(q, g, j) ==> q[j].seqno in Requested(g)
    {
      ResentExactly(q, g, j);
      if InPlace(q, g, j) {
        InPlaceIsRequested(q, g, j);
      }
    }
  }

  lemma ReachGivesStray(q: seq<Entry>, g: Gnack) returns (j: nat)
    requires Gapless(q, g) && ZeroInReach(q, g)
    ensures Find(q, g.pid) <= j < |q| && Stray(q, g, j)
  {
    var i :| 0 < i <= BLPSZ && Find(q, g.pid) + i < |q| && Unasked(g, i);
    j := Find(q, g.pid) + i;
  }

  lemma StrayGivesReach(q: seq<Entry>, g: Gnack, j: nat)
    requires Gapless(q, g) && j < |q| && Stray(q, g, j)
    ensures ZeroInReach(q, g)
  {
    assert Unasked(g, j - Find(q, g.pid));
  }

  /**
   * If the queue has no gap from the first requested number on, this means that
   * no other requested packet waits in front of the first one (or without it)
   * and that number 0 does not sit in reach at a place that was not asked for.
   */
  lemma GaplessServedIff(q: seq<Entry>, g: Gnack)
    requires Distinct(q) && Gapless(q, g)
    ensures Served(q, g) <==>
      (forall j :: 0 <= j < Find(q, g.pid) ==> q[j].seqno !in Requested(g)) && !ZeroInReach(q, g)
  {
    ServedIff(q, g);
    forall j | Find(q, g.pid) <= j < |q|
      ensures q[j].seqno in Requested(g) <==> InPlace(q, g, j)
      ensures Stray(q, g, j) ==> ZeroInReach(q, g)
    {
      GaplessAsked(q, g, j);
      if Stray(q, g, j) {
        StrayGivesReach(q, g, j);
      }
    }
    if ZeroInReach(q, g) {
      var j := ReachGivesStray(q, g);
    }
  }

  /**
   * Both ends together: when the receiver reports a gap behind number `last`,
   * the sender resends exactly the queued packets among the missing ones, up to
   * the 17th, under the condition of `GaplessServedIff`.
   */
  lemma GapIsResent(q: seq<Entry>, last: int, gap: int, j: nat)
    requires 2 <= gap < 0x8000 && j < |q|
    requires var g := GapNack(true, W16(last), W16(last + gap)).value;
      Distinct(q) && Gapless(q, g) && !ZeroInReach(q, g) &&
      forall i :: 0 <= i < Find(q, g.pid) ==> q[i].seqno !in Requested(g)
    ensures var g := GapNack(true, W16(last), W16(last + gap)).value;
      q[j] in Resent(q, g) <==> q[j].seqno in FirstAfter(last, Min(gap - 1, BLPSZ + 1))
  {
    GapNackExact(last, gap);
    GaplessServedIff(q, GapNack(true, W16(last), W16(last + gap)).value);
  }

  // ---------------------------------------------------------------- runs

  /** The queue, and the identity of the next entry. */
  datatype Waiting = Waiting(q: seq<Entry>, next: nat)

  /** A packet is sent at clock reading `now`, a NACK comes in, or the video is stopped. */
  datatype Op = Sent(now: nat, seqno: u16) | Nacked(g: Gnack) | Cleared

  function QueueStep(w: Waiting, op: Op): Waiting {
    match op
    case Sent(now, seqno) =>
      Waiting(Cleanup(w.q + [Entry(w.next, seqno, now + NACK_QUEUE_USEC)], now), w.next + 1)
    case Nacked(g) => w.(q := Remaining(w.q, g))
    case Cleared => w.(q := [])
  }

  /** Since the last clear: all packets sent, those resent; in the whole run: the order of resends and the clock. */
  datatype History = History(sent: seq<Entry>, gone: set<nat>, resends: seq<nat>, now: nat)

  function IdSeq(q: seq<Entry>): (r: seq<nat>)
    ensures |r| == |q|
  {
    seq(|q|, i requires 0 <= i < |q| => q[i].id)
  }

  function HistoryStep(w: Waiting, h: History, op: Op): History {
    match op
    case Sent(now, seqno) => h.(sent := h.sent + [Entry(w.next, seqno, now + NACK_QUEUE_USEC)], now := now)
    case Nacked(g) =>
      h.(gone := h.gone + Ids(Resent(w.q, g)), resends := h.resends + IdSeq(Resent(w.q, g)))
    case Cleared => h.(sent := [], gone := {})
  }

  predicate Unrepeated(s: seq<nat>) { forall i, j :: 0 <= i < j < |s| ==> s[i] != s[j] }

  /** The queue is exactly what was sent, is not resent and is not overdue; no resend repeats or can repeat. */
  ghost predicate Kept(w: Waiting, h: History) {
    && w.q == Live(h.sent, h.gone, h.now)
    && SortedByDeadline(h.sent) && Distinct(h.sent)
    && (forall e :: e in h.sent ==> e.id < w.next && e.deadline <= h.now + NACK_QUEUE_USEC)
    && (forall id :: id in h.gone ==> id < w.next)
    && Unrepeated(h.resends)
    && (forall i :: 0 <= i < |h.resends| ==> h.resends[i] < w.next)
    && (forall i :: 0 <= i < |h.resends| ==> h.resends[i] !in Ids(w.q))
  }

  lemma {:induction false} LiveDistinct(q: seq<Entry>, gone: set<nat>, now: nat)
    requires Distinct(q)
    ensures Distinct(Live(q, gone, now))
  {
    if q != [] {
      LiveDistinct(q[1..], gone, now);
      LiveMembers(q[1..], gone, now);
      var r := Live(q[1..], gone, now);
      forall i | 0 <= i < |r| ensures r[i].id != q[0].id {
        assert r[i] in q[1..];
        var j :| 0 <= j < |q[1..]| && q[1..][j] == r[i];
      }
    }
  }

  lemma {:induction false} PickedDistinct(q: seq<Entry>, table: seq<u16>)
    requires Distinct(q)
    ensures Distinct(Picked(q, table))
  {
    if q != [] && table != [] {
      PickedDistinct(q[1..], table[1..]);
      PickedIn(q[1..], table[1..]);
      var r := Picked(q[1..], table[1..]);
      forall i | 0 <= i < |r| ensures r[i].id != q[0].id {
        assert r[i] in q[1..];
        var j :| 0 <= j < |q[1..]| && q[1..][j] == r[i];
      }
    }
  }

  lemma AppendSorted(w: Waiting, h: History, e: Entry)
    requires Kept(w, h) && e.id == w.next && h.now + NACK_QUEUE_USEC <= e.deadline
    ensures SortedByDeadline(h.sent + [e]) && Distinct(h.sent + [e])
  {
    forall i | 0 <= i < |h.sent| ensures h.sent[i].id < w.next && h.sent[i].deadline <= e.deadline {
      assert h.sent[i] in h.sent;
    }
  }

  lemma SentLive(w: Waiting, h: History, e: Entry)
    requires Kept(w, h) && e.id == w.next && h.now <= e.deadline
    ensures Live(h.sent + [e], h.gone, h.now) == w.q + [e]
  {
    assert e.id !in h.gone;
    AllLive([e], h.gone, h.now);
    LiveConcat(h.sent, [e], h.gone, h.now);
  }

  lemma SentQueue(w: Waiting, h: History, now: nat, seqno: u16)
    requires Kept(w, h) && h.now <= now
    ensures var w', h' := QueueStep(w, Sent(now, seqno)), HistoryStep(w, h, Sent(now, seqno));
      w'.q == Live(h'.sent, h'.gone, h'.now) && SortedByDeadline(h'.sent) && Distinct(h'.sent)
  {
    var e := Entry(w.next, seqno, now + NACK_QUEUE_USEC);
    var sent := h.sent + [e];
    AppendSorted(w, h, e);
    SentLive(w, h, e);
    LiveSorted(sent, h.gone, h.now);
    CleanupIsFilter(w.q + [e], now);
    LiveTwice(sent, h.gone, h.now, {}, now);
    assert h.gone + {} == h.gone;
  }

  lemma SentKept(w: Waiting, h: History, now: nat, seqno: u16)
    requires Kept(w, h) && h.now <= now
    ensures Kept(QueueStep(w, Sent(now, seqno)), HistoryStep(w, h, Sent(now, seqno)))
  {
    SentQueue(w, h, now, seqno);
    var w', h' := QueueStep(w, Sent(now, seqno)), HistoryStep(w, h, Sent(now, seqno));
    LiveMembers(h.sent, h.gone, h.now);
    LiveMembers(h'.sent, h'.gone, h'.now);
    forall i | 0 <= i < |h.resends| ensures h.resends[i] !in Ids(w'.q) {
      forall e | e in w'.q ensures e.id != h.resends[i] {
        if e in h.sent {
          assert Lives(e, h.gone, h.now);
          assert e in w.q;
        }
      }
    }
  }

  lemma NackQueue(w: Waiting, h: History, g: Gnack)
    requires Kept(w, h)
    ensures Remaining(w.q, g) == Live(h.sent, h.gone + Ids(Resent(w.q, g)), h.now)
    ensures Distinct(w.q) && Distinct(Resent(w.q, g))
    ensures forall e :: e in Resent(w.q, g) ==> e in w.q
  {
    LiveDistinct(h.sent, h.gone, h.now);
    RemainingIsLive(w.q, g);
    LiveTwice(h.sent, h.gone, h.now, Ids(Resent(w.q, g)), 0);
    PickedDistinct(w.q[Find(w.q, g.pid)..], PidTable(g));
  }

  lemma ResendsFresh(w: Waiting, h: History, g: Gnack)
    requires Kept(w, h)
    ensures Unrepeated(h.resends + IdSeq(Resent(w.q, g)))
    ensures forall e :: e in Resent(w.q, g) ==> e.id < w.next
  {
    NackQueue(w, h, g);
    LiveMembers(h.sent, h.gone, h.now);
    var r := Resent(w.q, g);
    forall i | 0 <= i < |r| ensures r[i].id in Ids(w.q) {
      assert r[i] in w.q;
    }
  }

  lemma NackKept(w: Waiting, h: History, g: Gnack)
    requires Kept(w, h)
    ensures Kept(QueueStep(w, Nacked(g)), HistoryStep(w, h, Nacked(g)))
  {
    NackQueue(w, h, g);
    ResendsFresh(w, h, g);
    var q, r := Remaining(w.q, g), Resent(w.q, g);
    LiveMembers(h.sent, h.gone, h.now);
    LiveMembers(h.sent, h.gone + Ids(r), h.now);
    var resends := h.resends + IdSeq(r);
    forall i | 0 <= i < |resends| ensures resends[i] < w.next && resends[i] !in Ids(q) {
      if i >= |h.resends| {
        assert r[i - |h.resends|] in r;
        assert resends[i] in Ids(r);
      }
    }
  }

  /** Every step with a monotone clock keeps the queue exact. */
  lemma StepKept(w: Waiting, h: History, op: Op)
    requires Kept(w, h) && (op.Sent? ==> h.now <= op.now)
    ensures Kept(QueueStep(w, op), HistoryStep(w, h, op))
  {
    match op
    case Sent(now, seqno) => SentKept(w, h, now, seqno);
    case Nacked(g) => NackKept(w, h, g);
    case Cleared =>
  }

  function Run(ops: seq<Op>): Waiting
    decreases |ops|
  {
    if ops == [] then Waiting([], 0) else QueueStep(Run(ops[..|ops|-1]), ops[|ops|-1])
  }

  function HistoryOf(ops: seq<Op>): History
    decreases |ops|
  {
    if ops == [] then History([], {}, [], 0)
    else HistoryStep(Run(ops[..|ops|-1]), HistoryOf(ops[..|ops|-1]), ops[|ops|-1])
  }

  predicate MonotoneClock(ops: seq<Op>)
    decreases |ops|
  {
    ops == [] ||
    (MonotoneClock(ops[..|ops|-1]) && (ops[|ops|-1].Sent? ==> HistoryOf(ops[..|ops|-1]).now <= ops[|ops|-1].now))
  }

  /**
   * In every run the queue holds, in order, exactly the packets sent since the
   * last clear that were not resent and whose deadline has not passed; and no
   * queue entry is ever resent twice.
   */
  lemma {:induction false} RunKept(ops: seq<Op>)
    requires MonotoneClock(ops)
    ensures Kept(Run(ops), HistoryOf(ops))
    decreases |ops|
  {
    if ops != [] {
      RunKept(ops[..|ops|-1]);
      StepKept(Run(ops[..|ops|-1]), HistoryOf(ops[..|ops|-1]), ops[|ops|-1]);
    }
  }

  // ---------------------------------------------------------------- an example

  function QueuedAt(id: nat, seqno: u16): Entry { Entry(id, seqno, NACK_QUEUE_USEC) }

  /** What four packets and a NACK for the second one leave in the queue. */
  lemma QueueWithGap()
    ensures Run([Sent(0, 10), Sent(0, 11), Sent(0, 12), Sent(0, 13), Nacked(Gnack(11, 0))]).q
         == [QueuedAt(0, 10), QueuedAt(2, 12), QueuedAt(3, 13)]
  {
    var ops := [Sent(0, 10), Sent(0, 11), Sent(0, 12), Sent(0, 13), Nacked(Gnack(11, 0))];
    FourSent();
    assert ops[..4] == [Sent(0, 10), Sent(0, 11), Sent(0, 12), Sent(0, 13)];
    ElevenLeaves();
  }

  lemma FourSent()
    ensures Run([Sent(0, 10), Sent(0, 11), Sent(0, 12), Sent(0, 13)])
         == Waiting([QueuedAt(0, 10), QueuedAt(1, 11), QueuedAt(2, 12), QueuedAt(3, 13)], 4)
  {
    var ops := [Sent(0, 10), Sent(0, 11), Sent(0, 12), Sent(0, 13)];
    assert ops[..3] == [Sent(0, 10), Sent(0, 11), Sent(0, 12)] && ops[..3][..2] == [Sent(0, 10), Sent(0, 11)];
    assert ops[..3][..2][..1] == [Sent(0, 10)] && ops[..3][..2][..1][..0] == [];
    assert Run([Sent(0, 10)]) == Waiting([QueuedAt(0, 10)], 1);
    assert Run([Sent(0, 10), Sent(0, 11)]) == Waiting([QueuedAt(0, 10), QueuedAt(1, 11)], 2);
    assert Run(ops[..3]) == Waiting([QueuedAt(0, 10), QueuedAt(1, 11), QueuedAt(2, 12)], 3);
  }

  lemma ElevenLeaves()
    ensures Remaining([QueuedAt(0, 10), QueuedAt(1, 11), QueuedAt(2, 12), QueuedAt(3, 13)], Gnack(11, 0))
         == [QueuedAt(0, 10), QueuedAt(2, 12), QueuedAt(3, 13)]
  {
    var q := [QueuedAt(0, 10), QueuedAt(1, 11), QueuedAt(2, 12), QueuedAt(3, 13)];
    var g := Gnack(11, 0);
    var table := PidTable(g);
    forall i | 1 <= i <= BLPSZ ensures table[i] == 0 {
      BitOfZero(i - 1);
    }
    assert Find(q, 11) == 1 by { assert q[1..][0] == q[1]; }
    assert q[1..] == [q[1], q[2], q[3]] && q[1..][1..] == [q[2], q[3]] && [q[2], q[3]][1..] == [q[3]];
    assert table[1..][1..] == table[2..];
    assert Unpicked([q[3]], table[2..]) == [q[3]];
    assert Unpicked([q[2], q[3]], table[1..]) == [q[2], q[3]];
    assert Unpicked(q[1..], table) == [q[2], q[3]];
  }

  /**
   * The walk needs the queue to be gapless: in a run in which number 11 has been
   * resent, a NACK for 10, 12 and 13 finds 12 and 13 one place early and resends
   * only 10.
   */
  lemma GapBreaksService()
    ensures
      var q := Run([Sent(0, 10), Sent(0, 11), Sent(0, 12), Sent(0, 13), Nacked(Gnack(11, 0))]).q;
      var g := Gnack(10, 6);
      |q| == 3 && Requested(g) == {10, 12, 13} && Resent(q, g) == [q[0]] && !Served(q, g)
  {
    QueueWithGap();
    OnlyTenResent();
  }

  lemma OnlyTenResent()
    ensures
      var q := [QueuedAt(0, 10), QueuedAt(2, 12), QueuedAt(3, 13)];
      var g := Gnack(10, 6);
      Requested(g) == {10, 12, 13} && Resent(q, g) == [q[0]] && !Served(q, g)
  {
    var q := [QueuedAt(0, 10), QueuedAt(2, 12), QueuedAt(3, 13)];
    var g := Gnack(10, 6);
    forall i | 0 <= i <= BLPSZ ensures Asks(g, i) <==> i == 0 || i == 2 || i == 3 {
      if i > 3 {
        assert Bit(6, i - 1) == Bit(3, i - 2) == Bit(1, i - 3) == Bit(0, i - 4);
        BitOfZero(i - 4);
      }
    }
    assert Asks(g, 0) && Asks(g, 2) && Asks(g, 3);
    assert W16(g.pid + 0) == 10 && W16(g.pid + 2) == 12 && W16(g.pid + 3) == 13;
    var table := PidTable(g);
    assert table[0] == 10 && table[1] == 0 && table[2] == 12;
    assert Picked(q[2..], table[2..]) == [];
    assert Picked(q[1..], table[1..]) == [];
  }
}
