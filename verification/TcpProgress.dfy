/**
 What the send side does, beyond keeping its invariant: which segments tcp_output sends and why it
 stops, what retransmission puts back on the queue, and what goes on the wire after a timeout.
 */
module TcpProgress {
  import opened Basics
  import opened SeqNum
  import opened TcpTransmit
  import opened TcpQueues
  import opened TcpSendRuns

  // ----- output

  /** Segment `j` of `unsent` may go: its data end inside the window, and no small segment is being
      held back. A small segment is one of less than `mss` bytes with nothing behind it; it is held
      back while something is unacknowledged, unless the delay is off or the FIN is queued. */
  predicate Sendable(t: Tx, j: nat, wnd: nat, mss: nat, now: bool)
    requires j < |t.unsent|
  {
    var s := t.unsent[j];
    && t.lastack <= s.DataEnd() <= t.lastack + wnd
    && (|s.data| >= mss || j + 1 < |t.unsent| || now || t.finQueued || (j == 0 && t.unacked == []))
  }

  /** `u` is `t` with the first `k` unsent segments sent. */
  ghost predicate Sent(t: Tx, u: Tx, k: nat) {
    && k <= |t.unsent| && u == t.(unsent := t.unsent[k..], unacked := u.unacked, nxt := u.nxt)
    && (forall x :: x in u.unacked <==> x in t.unacked || x in t.unsent[..k])
    && |u.unacked| == |t.unacked| + k
    && t.nxt <= u.nxt && (forall x :: x in t.unsent[..k] ==> x.End() <= u.nxt)
    && (u.nxt == t.nxt || exists x :: x in t.unsent[..k] && x.End() == u.nxt)
  }

  lemma {:induction false} InsertSortedLen(q: seq<TxSeg>, s: TxSeg)
    ensures |InsertSorted(q, s)| == |q| + 1
  {
    if q != [] && q[0].pos < s.pos {
      InsertSortedLen(q[1..], s);
    }
  }

  lemma SentNone(t: Tx)
    ensures Sent(t, t, 0)
  {
  }

  lemma SentBound(t: Tx, u: Tx, k: nat)
    requires Sent(t, u, k)
    ensures k <= |t.unsent|
  {
  }

  lemma SentMore(t: Tx, u: Tx, k: nat)
    requires t.unsent != [] && Sent(SendHead(t), u, k)
    ensures Sent(t, u, k + 1)
  {
    var s, t1 := t.unsent[0], SendHead(t);
    InsertSortedMembers(t.unacked, s);
    InsertSortedLen(t.unacked, s);
    hide InsertSorted;
    assert t.unsent[..k + 1] == [s] + t1.unsent[..k];
    assert t.unsent[k + 1..] == t1.unsent[k..];
    if u.nxt != t.nxt {
      if u.nxt != t1.nxt {
        var x :| x in t1.unsent[..k] && x.End() == u.nxt;
        assert x in t.unsent[..k + 1];
      } else {
        assert s in t.unsent[..k + 1] && s.End() == u.nxt;
      }
    }
  }

  /** tcp_output sends the leading segments as far as they may go, and no others. */
  lemma {:induction false} OutputSends(t: Tx, wnd: nat, mss: nat, now: bool, base: int, log: seq<Unit>, l: Limits) returns (k: nat)
    requires TxOk(t, base, log, l) && wnd <= 0xffff
    ensures Sent(t, Output(t, wnd, mss, now), k)
    ensures forall j :: 0 <= j < k ==> Sendable(t, j, wnd, mss, now)
    ensures k < |t.unsent| ==> !Sendable(t, k, wnd, mss, now)
    decreases |t.unsent|
  {
    hide TxOk, SendHead, Sent;
    HeadSendable(t, wnd, mss, now, base, log, l);
    if t.unsent != [] && Sendable(t, 0, wnd, mss, now) {
      SendHeadOk(t, base, log, l, wnd);
      SendHeadShorter(t);
      var u := SendHead(t);
      k := OutputSends(u, wnd, mss, now, base, log, l);
      SentBound(u, Output(u, wnd, mss, now), k);
      SentMore(t, Output(t, wnd, mss, now), k);
      LaterSendable(t, wnd, mss, now);
      forall j | 0 <= j < k + 1 ensures Sendable(t, j, wnd, mss, now) {
        assert j > 0 ==> Sendable(u, j - 1, wnd, mss, now);
      }
      k := k + 1;
    } else {
      k := 0;
      SentNone(t);
    }
  }

  lemma HeadSendable(t: Tx, wnd: nat, mss: nat, now: bool, base: int, log: seq<Unit>, l: Limits)
    requires TxOk(t, base, log, l) && wnd <= 0xffff
    ensures FitsWindow(t, wnd) && MaySend(t, mss, now || t.finQueued) <==>
            t.unsent != [] && Sendable(t, 0, wnd, mss, now)
  {
    if FitsWindow(t, wnd) {
      UnsentNear(t, base, log, l);
      hide Cover, AtMostOnce, Clen, Carries;
      assert t.lbb <= t.lastack + 2 * SPAN;
      WindowNear(t, base, log, wnd);
    }
  }

  /** Once the head is sent something is unacknowledged; otherwise nothing changes for the rest. */
  lemma LaterSendable(t: Tx, wnd: nat, mss: nat, now: bool)
    requires t.unsent != []
    ensures |SendHead(t).unsent| == |t.unsent| - 1
    ensures forall j :: 0 <= j < |SendHead(t).unsent| ==>
              (Sendable(SendHead(t), j, wnd, mss, now) <==> Sendable(t, j + 1, wnd, mss, now))
  {
    InsertSortedLen(t.unacked, t.unsent[0]);
    hide InsertSorted;
  }

  /** Why tcp_output stops: nothing is left, the next segment does not fit the window, or one small
      segment is held back behind unacknowledged data. */
  lemma OutputStops(t: Tx, wnd: nat, mss: nat, now: bool, base: int, log: seq<Unit>, l: Limits)
    requires TxOk(t, base, log, l) && wnd <= 0xffff
    ensures Output(t, wnd, mss, now).lastack == t.lastack
    ensures var u := Output(t, wnd, mss, now);
            || u.unsent == []
            || !(t.lastack <= u.unsent[0].DataEnd() <= t.lastack + wnd)
            || (!now && !t.finQueued && u.unacked != [] && |u.unsent| == 1 && |u.unsent[0].data| < mss)
  {
    var k := OutputSends(t, wnd, mss, now, base, log, l);
    hide TxOk, Output;
    var u := Output(t, wnd, mss, now);
    if u.unsent != [] {
      assert u.unsent[0] == t.unsent[k] && |u.unsent| == |t.unsent| - k;
      if k > 0 {
        assert t.unsent[0] in t.unsent[..k];
      }
    }
  }

  /** With nothing outstanding a segment that fits the window goes at once, however small. */
  lemma IdleSends(t: Tx, wnd: nat, mss: nat, now: bool, base: int, log: seq<Unit>, l: Limits)
    requires TxOk(t, base, log, l) && wnd <= 0xffff
    requires t.unacked == [] && t.unsent != [] && t.lastack <= t.unsent[0].DataEnd() <= t.lastack + wnd
    ensures var u := Output(t, wnd, mss, now); t.unsent[0] in u.unacked && u.nxt >= t.unsent[0].End()
  {
    var k := OutputSends(t, wnd, mss, now, base, log, l);
    hide TxOk, Output;
    assert k > 0 && t.unsent[0] in t.unsent[..k];
  }

  // ----- retransmission

  /** Fast retransmit: the lowest unacknowledged segment, and no other, goes back to `unsent`, behind
      what starts lower there; everything else keeps its place. */
  lemma RexmitMoves(t: Tx, base: int, log: seq<Unit>, l: Limits) returns (i: nat)
    requires TxOk(t, base, log, l) && t.unacked != []
    ensures i <= |t.unsent|
    ensures var s, u := t.unacked[0], Rexmit(t);
            && u == t.(unacked := t.unacked[1..], unsent := t.unsent[..i] + [s] + t.unsent[i..])
            && (forall x :: x in t.unacked[1..] ==> s.pos < x.pos)
            && (forall j :: 0 <= j < i ==> t.unsent[j].pos < s.pos)
            && (i < |t.unsent| ==> s.pos < t.unsent[i].pos)
  {
    var s := t.unacked[0];
    i := InsertPlace(t.unsent, s);
    forall x | x in t.unacked[1..] ensures s.pos < x.pos {
      var j :| 0 <= j < |t.unacked[1..]| && t.unacked[1..][j] == x;
      assert x == t.unacked[j + 1];
    }
    if i < |t.unsent| {
      assert s in t.unacked && t.unsent[i] in t.unsent;
      assert Carries(s, base, log) && Carries(t.unsent[i], base, log);
      Disjoint(t, base, log, s, t.unsent[i]);
    }
  }

  lemma {:induction false} InsertPlace(q: seq<TxSeg>, s: TxSeg) returns (i: nat)
    ensures i <= |q| && InsertSorted(q, s) == q[..i] + [s] + q[i..]
    ensures forall j :: 0 <= j < i ==> q[j].pos < s.pos
    ensures i < |q| ==> s.pos <= q[i].pos
  {
    if q == [] || !(q[0].pos < s.pos) {
      i := 0;
    } else {
      var k := InsertPlace(q[1..], s);
      assert q[..k + 1] == [q[0]] + q[1..][..k] && q[k + 1..] == q[1..][k..];
      i := k + 1;
      forall j | 0 <= j < i ensures q[j].pos < s.pos {
        assert j > 0 ==> q[j] == q[1..][j - 1];
      }
    }
  }

  /** Retransmission timeout: nothing stays on `unacked`, and all that was sent and not acknowledged
      is to be sent again, the oldest of it first. */
  lemma RexmitAllMoves(t: Tx, base: int, log: seq<Unit>, l: Limits)
    requires TxOk(t, base, log, l)
    ensures var u := RexmitAll(t);
            && u == t.(unacked := [], unsent := t.unacked + t.unsent)
            && (forall n :: t.lastack <= n < t.lbb ==> Cover(u.unsent, n) == 1)
  {
    if t.unacked == [] {
      assert [] + t.unsent == t.unsent;
    }
  }

  // ----- what is resent first

  /** `unsent` is sorted too, and nothing queued is acknowledged in full. */
  ghost predicate Tidy(t: Tx) {
    && Sorted(t.unsent)
    && (forall s :: s in t.unacked ==> t.lastack < s.End())
    && (forall s :: s in t.unsent ==> t.lastack < s.End())
  }

  /** A timeout comes while a segment requeued by a fast retransmit still waits below others. */
  predicate Crosses(t: Tx) {
    t.unacked != [] && t.unsent != [] && t.unsent[0].pos < t.unacked[|t.unacked| - 1].pos
  }

  /** The first segment put on the wire after a timeout is the lowest unacknowledged one. It carries
      the position waited for, lastack, if and only if that is not waiting on `unsent` already. */
  lemma TimeoutFirst(t: Tx, wnd: nat, mss: nat, now: bool, base: int, log: seq<Unit>, l: Limits) returns (k: nat)
    requires TxOk(t, base, log, l) && t.unacked != [] && wnd <= 0xffff
    requires t.lastack <= t.unacked[0].DataEnd() <= t.lastack + wnd
    ensures k > 0 && Sent(RexmitAll(t), Output(RexmitAll(t), wnd, mss, now), k)
    ensures RexmitAll(t).unsent[0] == t.unacked[0]
    ensures Tidy(t) ==> (t.unacked[0].pos <= t.lastack < t.unacked[0].End() <==>
                         t.unsent == [] || t.unacked[0].pos < t.unsent[0].pos)
  {
    RexmitOk(t, base, log, l);
    RexmitAllMoves(t, base, log, l);
    k := OutputSends(RexmitAll(t), wnd, mss, now, base, log, l);
    if Tidy(t) {
      hide Output, RexmitAll, Sent;
      LowestCarries(t, base, log, l);
    }
  }

  /** The lowest queued segment carries lastack. */
  lemma LowestCarries(t: Tx, base: int, log: seq<Unit>, l: Limits)
    requires TxOk(t, base, log, l) && Tidy(t) && t.unacked != []
    ensures t.unacked[0].pos <= t.lastack < t.unacked[0].End() <==> t.unsent == [] || t.unacked[0].pos < t.unsent[0].pos
  {
    var s, q := t.unacked[0], t.unacked + t.unsent;
    assert s in t.unacked && Carries(s, base, log);
    assert t.lastack < t.lbb;
    var i := CoverWitness(q, t.lastack);
    var x := q[i];
    if x in t.unacked {
      FirstLowest(t.unacked, x);
      if x != s {
        NoneBelow(t, base, log, l, s, x);
      }
      if t.unsent != [] && t.unsent[0].pos <= s.pos {
        Distinct(t, base, log, l, x, t.unsent[0]);
        NoneBelow(t, base, log, l, t.unsent[0], x);
      }
    } else {
      Distinct(t, base, log, l, s, x);
      FirstLowest(t.unsent, x);
      NoneBelow(t, base, log, l, s, x);
    }
  }

  lemma Distinct(t: Tx, base: int, log: seq<Unit>, l: Limits, x: TxSeg, y: TxSeg)
    requires TxOk(t, base, log, l) && x in t.unacked && y in t.unsent
    ensures x != y
  {
    assert Carries(x, base, log);
    Disjoint(t, base, log, x, y);
  }

  lemma FirstLowest(q: seq<TxSeg>, x: TxSeg)
    requires Sorted(q) && x in q
    ensures q != [] && (x == q[0] || q[0].pos < x.pos)
  {
    var i :| 0 <= i < |q| && q[i] == x;
  }

  /** Nothing live starts below the segment that carries lastack. */
  lemma NoneBelow(t: Tx, base: int, log: seq<Unit>, l: Limits, y: TxSeg, x: TxSeg)
    requires TxOk(t, base, log, l) && Tidy(t)
    requires y in t.unacked + t.unsent && x in t.unacked + t.unsent && x != y && x.pos <= t.lastack < x.End()
    ensures x.End() <= y.pos
  {
    var q := t.unacked + t.unsent;
    var i :| 0 <= i < |q| && q[i] == x;
    var j :| 0 <= j < |q| && q[j] == y;
    assert forall z :: z in q ==> z in t.unacked || z in t.unsent;
    assert Carries(x, base, log) && Carries(y, base, log) && t.lastack < y.End();
    hide Carries, Cover, Accounts, Sorted, FreshTail;
    if y.pos <= x.pos {
      Apart(q, j, i);
    } else {
      Apart(q, i, j);
    }
  }

  lemma TidySent(t: Tx, u: Tx, k: nat)
    requires Tidy(t) && Sent(t, u, k)
    ensures Tidy(u)
  {
    assert forall x :: x in t.unsent[..k] || x in t.unsent[k..] ==> x in t.unsent;
  }

  lemma TidyRexmit(t: Tx, base: int, log: seq<Unit>, l: Limits)
    requires TxOk(t, base, log, l) && Tidy(t)
    ensures Tidy(Rexmit(t))
  {
    if t.unacked != [] {
      var i := RexmitMoves(t, base, log, l);
      hide TxOk, Rexmit;
      assert forall x :: x in t.unacked[1..] ==> x in t.unacked;
      assert forall x :: x in t.unsent[..i] || x in t.unsent[i..] ==> x in t.unsent;
      SortedInsert(t.unsent, i, t.unacked[0]);
    }
  }

  lemma SortedInsert(q: seq<TxSeg>, i: nat, s: TxSeg)
    requires Sorted(q) && i <= |q|
    requires (forall j :: 0 <= j < i ==> q[j].pos < s.pos) && (i < |q| ==> s.pos < q[i].pos)
    ensures Sorted(q[..i] + [s] + q[i..])
  {
    var r := q[..i] + [s] + q[i..];
    forall a, b | 0 <= a < b < |r| ensures r[a].pos < r[b].pos {
      assert r[a] == if a < i then q[a] else if a == i then s else q[a - 1];
      assert r[b] == if b < i then q[b] else if b == i then s else q[b - 1];
      if b > i + 1 {
        assert q[i].pos < q[b - 1].pos;
      }
    }
  }

  lemma TidyRexmitAll(t: Tx, base: int, log: seq<Unit>, l: Limits)
    requires TxOk(t, base, log, l) && Tidy(t) && !Crosses(t)
    ensures Tidy(RexmitAll(t))
  {
    hide TxOk, RexmitAll, Sorted;
    RexmitAllIs(t);
    UnackedSorted(t, base, log, l);
    if t.unacked != [] && t.unsent != [] {
      var x, y := t.unacked[|t.unacked| - 1], t.unsent[0];
      assert x in t.unacked && y in t.unsent;
      PosDiffer(t, base, log, l, x, y);
      SortedBoth(t.unacked, t.unsent);
    } else {
      assert [] + t.unsent == t.unsent && t.unacked + [] == t.unacked;
    }
  }

  lemma RexmitAllIs(t: Tx)
    ensures RexmitAll(t) == t.(unacked := [], unsent := t.unacked + t.unsent)
  {
    if t.unacked == [] {
      assert [] + t.unsent == t.unsent;
    }
  }

  lemma UnackedSorted(t: Tx, base: int, log: seq<Unit>, l: Limits)
    requires TxOk(t, base, log, l)
    ensures Sorted(t.unacked)
  {
  }

  lemma PosDiffer(t: Tx, base: int, log: seq<Unit>, l: Limits, x: TxSeg, y: TxSeg)
    requires TxOk(t, base, log, l) && x in t.unacked && y in t.unsent
    ensures x.pos != y.pos
  {
    assert Carries(x, base, log) && Carries(y, base, log);
    Disjoint(t, base, log, x, y);
  }

  lemma SortedBoth(x: seq<TxSeg>, y: seq<TxSeg>)
    requires Sorted(x) && Sorted(y) && x != [] && y != [] && x[|x| - 1].pos < y[0].pos
    ensures Sorted(x + y)
  {
    forall i, j | 0 <= i < |x| && 0 <= j < |y| ensures x[i].pos < y[j].pos {
      assert i < |x| - 1 ==> x[i].pos < x[|x| - 1].pos;
      assert 0 < j ==> y[0].pos < y[j].pos;
    }
  }

  /** What an ACK leaves of the queues. */
  lemma AckLeaves(t: Tx, a: int, base: int, log: seq<Unit>, l: Limits)
    requires TxOk(t, base, log, l) && AckRange(t, a) && !Stale(t, a)
    ensures var u, fresh' := Ack(t, a), t.lastack < a <= t.nxt;
            && u.lastack == (if fresh' then a else t.lastack)
            && u.unacked == (if fresh' then t.unacked[AckedRun(t.unacked, a)..] else t.unacked)
            && u.unsent == (if a <= t.nxt then t.unsent[AckedRun(t.unsent, a)..] else t.unsent)
  {
    UnsentNear(t, base, log, l);
    RequeuedRunIs(t.unsent, a, t.nxt);
    hide TxOk, RequeuedRun, AckedRun, EndsNear, FreshTail, Clen;
  }

  lemma TidyAck(t: Tx, a: int, base: int, log: seq<Unit>, l: Limits)
    requires TxOk(t, base, log, l) && Tidy(t) && AckRange(t, a) && !Stale(t, a)
    ensures Tidy(Ack(t, a))
  {
    hide TxOk, Ack, AckedRun, Stale;
    AckLeaves(t, a, base, log, l);
    UnackedSorted(t, base, log, l);
    var u := Ack(t, a);
    KeptAbove(t.unacked, a, t, base, log, l);
    KeptAbove(t.unsent, a, t, base, log, l);
    assert forall x :: x in u.unsent ==> x in t.unsent;
    assert forall x :: x in u.unacked ==> x in t.unacked;
  }

  /** What is left of a queue after an ACK ends above it. */
  lemma KeptAbove(q: seq<TxSeg>, a: int, t: Tx, base: int, log: seq<Unit>, l: Limits)
    requires TxOk(t, base, log, l) && (q == t.unacked || q == t.unsent) && Sorted(q)
    ensures forall s :: s in q[AckedRun(q, a)..] ==> a < s.End()
  {
    var k := AckedRun(q, a);
    AckedRunBelow(q, a);
    hide AckedRun, Accounts, FreshTail, Cover;
    forall s | s in q[k..] ensures a < s.End() {
      var j :| 0 <= j < |q[k..]| && q[k..][j] == s;
      if j > 0 {
        QueueApart(q, k, k + j, t, base, log, l);
      }
    }
  }

  lemma QueueApart(q: seq<TxSeg>, i: nat, j: nat, t: Tx, base: int, log: seq<Unit>, l: Limits)
    requires TxOk(t, base, log, l) && (q == t.unacked || q == t.unsent) && Sorted(q) && i < j < |q|
    ensures q[i].End() <= q[j].pos < q[j].End()
  {
    QueueCarries(q, t, base, log, l);
    hide TxOk, AtMostOnce;
    assert q[i] in q && q[j] in q && q[i].pos < q[j].pos;
    Apart(q, i, j);
  }

  lemma QueueCarries(q: seq<TxSeg>, t: Tx, base: int, log: seq<Unit>, l: Limits)
    requires TxOk(t, base, log, l) && (q == t.unacked || q == t.unsent)
    ensures AtMostOnce(q) && forall s :: s in q ==> s.Len() > 0
  {
    hide Clen;
    forall s | s in q ensures s.Len() > 0 {
      assert Carries(s, base, log);
    }
    forall n ensures Cover(q, n) <= 1 {
      CoverConcat(t.unacked, t.unsent, n);
      assert Cover(t.unacked + t.unsent, n) <= 1;
    }
  }

  lemma {:induction false} NewSegsLen(pos: int, data: seq<byte>, syn: bool, fin: bool, copy: bool, mss: nat)
    requires mss > 0 && (data != [] || syn || fin)
    ensures forall s :: s in NewSegs(pos, data, syn, fin, copy, mss) ==> s.Len() > 0
    decreases |data|
  {
    if |data| > mss {
      NewSegsLen(pos + mss, data[mss..], syn, fin, copy, mss);
    }
  }

  lemma AppendSorted(unsent: seq<TxSeg>, q: seq<TxSeg>, mss: nat, lbb: int, lastack: int)
    requires q != [] && Ascending(q, lbb) && lastack <= lbb && Sorted(unsent)
    requires (forall s :: s in q ==> s.Len() > 0) && (q[0].fin ==> q[0].data == [] && |q| == 1)
    requires forall s :: s in unsent ==> s.pos < lbb && lastack < s.End()
    ensures Sorted(Append(unsent, q, mss)) && forall s :: s in Append(unsent, q, mss) ==> lastack < s.End()
  {
    var k := |unsent| - 1;
    Steps(q, lbb);
    if unsent != [] && Joinable(unsent[k], q[0], mss) {
      JoinIs(unsent[k], q[0], mss);
      hide Ascending, Sorted, Joinable, Join;
      LastReplaced(unsent, Join(unsent[k], q[0]), lbb, lastack);
      RestSorted(q, lbb);
      SortedJoin(unsent[..k] + [Join(unsent[k], q[0])], if q[0].fin then [] else q[1..], lbb, lastack);
    } else {
      hide Ascending, Sorted, Joinable, Join;
      SortedJoin(unsent, q, lbb, lastack);
    }
  }

  lemma LastReplaced(q: seq<TxSeg>, s: TxSeg, lbb: int, lastack: int)
    requires Sorted(q) && q != [] && s.pos == q[|q| - 1].pos && s.End() >= q[|q| - 1].End()
    requires forall x :: x in q ==> x.pos < lbb && lastack < x.End()
    ensures var r := q[..|q| - 1] + [s]; Sorted(r) && forall x :: x in r ==> x.pos < lbb && lastack < x.End()
  {
    assert q[|q| - 1] in q;
    assert forall x :: x in q[..|q| - 1] ==> x in q;
  }

  lemma RestSorted(q: seq<TxSeg>, lbb: int)
    requires Sorted(q) && q != [] && forall s :: s in q ==> lbb <= s.pos && s.Len() > 0
    ensures Sorted(q[1..]) && Sorted([]) && forall s :: s in q[1..] ==> lbb <= s.pos && s.Len() > 0
  {
  }

  lemma Steps(q: seq<TxSeg>, lbb: int)
    requires Ascending(q, lbb) && forall s :: s in q ==> s.Len() > 0
    ensures Sorted(q) && forall s :: s in q ==> lbb <= s.pos
  {
    assert forall i :: 0 <= i < |q| ==> q[i] in q;
  }

  lemma SortedJoin(x: seq<TxSeg>, y: seq<TxSeg>, lbb: int, lastack: int)
    requires Sorted(x) && Sorted(y) && lastack <= lbb
    requires forall s :: s in x ==> s.pos < lbb && lastack < s.End()
    requires forall s :: s in y ==> lbb <= s.pos && s.Len() > 0
    ensures Sorted(x + y) && forall s :: s in x + y ==> lastack < s.End()
  {
    assert forall i :: 0 <= i < |x| ==> x[i] in x;
    assert forall i :: 0 <= i < |y| ==> y[i] in y;
  }

  lemma TidyEnqueue(t: Tx, data: seq<byte>, syn: bool, fin: bool, copy: bool, mss: nat, mem: bool,
                    base: int, log: seq<Unit>, l: Limits)
    requires TxOk(t, base, log, l) && Tidy(t) && EnqueueArgs(t, base, data, syn, fin, mss, l)
    ensures var r := Enqueue(t, data, syn, fin, copy, mss, mem, l); r.Some? ==> Tidy(r.value)
  {
    var q := NewSegs(t.lbb, data, syn, fin, copy, mss);
    if data != [] || syn || fin {
      NewSegsLen(t.lbb, data, syn, fin, copy, mss);
      NewSegsOrder(t.lbb, data, syn, fin, copy, mss);
      NewHead(t.lbb, data, syn, fin, copy, mss);
      UnsentNear(t, base, log, l);
      hide NewSegs, Append, Accounts, Covered, Carries, FreshTail, EndsNear;
      AppendSorted(t.unsent, q, mss, t.lbb, t.lastack);
    }
  }

  /** A timeout event that crosses. */
  predicate CrossingEvent(k: Conn, e: Event) {
    e.RexmitAllEv? && Crosses(k.tx)
  }

  lemma TidySyn(t: Tx, base: int, log: seq<Unit>, l: Limits)
    requires TxOk(t, base, log, l) && Tidy(t)
    requires t.unacked != [] && t.unacked[0].syn && t.lastack == t.unacked[0].pos
    ensures Tidy(SynAcked(t))
  {
    SynAckedIsAck(t, base, log, l);
    var s, a := t.unacked[0], t.lastack + 1;
    assert s in t.unacked && Carries(s, base, log) && s.End() == a;
    KeptAbove(t.unacked, a, t, base, log, l);
    hide SynAcked;
    forall x | x in t.unsent ensures a < x.End() {
      Disjoint(t, base, log, s, x);
      assert Carries(x, base, log);
    }
  }

  /** Every other step keeps the queues tidy. */
  lemma TidyStep(k: Conn, e: Event, base: int, l: Limits)
    requires TxOk(k.tx, base, k.log, l) && Tidy(k.tx) && Admissible(k, e, base, l)
    requires !StaleEvent(k, e) && !CrossingEvent(k, e)
    ensures Tidy(Step(k, e, base, l).tx)
  {
    hide TxOk, Tidy, Enqueue, Output, Rexmit, RexmitAll, Ack, SynAcked, Sent, Stale, Crosses;
    match e
    case EnqueueEv(data, syn, fin, copy, mss, mem) =>
      TidyEnqueue(k.tx, data, syn, fin, copy, mss, mem, base, k.log, l);
    case OutputEv(wnd, mss, now) =>
      var n := OutputSends(k.tx, wnd, mss, now, base, k.log, l);
      TidySent(k.tx, Output(k.tx, wnd, mss, now), n);
    case RexmitEv =>
      TidyRexmit(k.tx, base, k.log, l);
    case RexmitAllEv =>
      TidyRexmitAll(k.tx, base, k.log, l);
    case AckEv(ackno) =>
      AckAnyOk(k.tx, ackno, base, k.log, l);
      TidyAck(k.tx, Position(ackno, k.tx.nxt), base, k.log, l);
    case SynAckEv =>
      TidySyn(k.tx, base, k.log, l);
  }

  lemma TidyStart(base: int, l: Limits)
    ensures Tidy(Initial(base, l).tx) && Tidy(Connecting(base, l).tx)
  {
  }

  /** In every run, as long as no ACK throws away unsent data and no timeout crosses a pending fast
      retransmit, `unsent` is sorted and holds nothing already acknowledged. */
  lemma {:induction false} TidyRun(ks: seq<Conn>, es: seq<Event>, base: int, l: Limits, n: nat)
    requires IsRun(ks, es, base, l) && 0 < l.sndBuf <= 0xffff && 0 < l.queueLen && n < |ks|
    requires forall i :: 0 <= i < n ==> !StaleEvent(ks[i], es[i]) && !CrossingEvent(ks[i], es[i])
    ensures TxOk(ks[n].tx, base, ks[n].log, l) && Tidy(ks[n].tx)
  {
    hide TxOk, Tidy, StaleEvent, CrossingEvent, Step, Initial, Connecting, Admissible;
    RunOk(ks, es, base, l, n);
    if n == 0 {
      TidyStart(base, l);
    } else {
      TidyRun(ks, es, base, l, n - 1);
      assert Follows(ks, es, base, l, n - 1);
      TidyStep(ks[n - 1], es[n - 1], base, l);
    }
  }

  // ----- what is accepted

  /** Data are cut into full segments but the last. */
  lemma {:induction false} NewSegsFull(pos: int, data: seq<byte>, syn: bool, fin: bool, copy: bool, mss: nat)
    requires mss > 0
    ensures var q := NewSegs(pos, data, syn, fin, copy, mss);
            && (forall i :: 0 <= i < |q| - 1 ==> |q[i].data| == mss)
            && |q[|q| - 1].data| <= mss && (|q| > 1 ==> q[|q| - 1].data != [])
            && Clen(q) == |q| * (if copy || data == [] then 1 else 2)
    decreases |data|
  {
    var q := NewSegs(pos, data, syn, fin, copy, mss);
    if |data| > mss {
      NewSegsFull(pos + mss, data[mss..], syn, fin, copy, mss);
      assert q[1..] == NewSegs(pos + mss, data[mss..], syn, fin, copy, mss);
    } else {
      assert q[1..] == [];
    }
  }

  /** Exactly when tcp_enqueue accepts: there is something to send, it fits the send buffer, memory was
      found, and the queue has room for the pbufs of all segments, two each unless data are copied. */
  lemma EnqueueAccepts(t: Tx, data: seq<byte>, syn: bool, fin: bool, copy: bool, mss: nat, mem: bool, l: Limits) returns (n: nat)
    requires mss > 0
    ensures (n == 1 && |data| <= mss) || (n > 1 && (n - 1) * mss < |data| <= n * mss)
    ensures Enqueue(t, data, syn, fin, copy, mss, mem, l).Some? <==>
            && (data != [] || syn || fin) && |data| <= t.buf && mem
            && t.qlen < l.queueLen && t.qlen + n * (if copy || data == [] then 1 else 2) <= l.queueLen
  {
    var q := NewSegs(t.lbb, data, syn, fin, copy, mss);
    NewSegsFull(t.lbb, data, syn, fin, copy, mss);
    n := |q|;
    SegCount(t.lbb, data, syn, fin, copy, mss);
    hide NewSegs, Append;
  }

  lemma {:induction false} SegCount(pos: int, data: seq<byte>, syn: bool, fin: bool, copy: bool, mss: nat)
    requires mss > 0
    ensures var n := |NewSegs(pos, data, syn, fin, copy, mss)|;
            (n == 1 && |data| <= mss) || (n > 1 && (n - 1) * mss < |data| <= n * mss)
    decreases |data|
  {
    if |data| > mss {
      SegCount(pos + mss, data[mss..], syn, fin, copy, mss);
      var m := |NewSegs(pos + mss, data[mss..], syn, fin, copy, mss)|;
      assert |NewSegs(pos, data, syn, fin, copy, mss)| == m + 1;
      assert (m + 1) * mss == m * mss + mss && (m - 1) * mss == m * mss - mss;
    }
  }

  /** New data fill up the last unsent segment: no segment is added for what fits one together with
      it, unless it carries a SYN or FIN or has no data. */
  lemma EnqueueMerges(t: Tx, data: seq<byte>, copy: bool, mss: nat, mem: bool, l: Limits)
    requires mss > 0 && Enqueue(t, data, false, false, copy, mss, mem, l).Some?
    requires t.unsent != [] && |data| <= mss
    requires var last := t.unsent[|t.unsent| - 1];
             !last.syn && !last.fin && last.data != [] && last.End() == t.lbb
    ensures var u, k := Enqueue(t, data, false, false, copy, mss, mem, l).value, |t.unsent| - 1;
            var last := t.unsent[k];
            if |last.data| + |data| <= mss then
              |u.unsent| == |t.unsent| && u.unsent[..k] == t.unsent[..k] && u.unsent[k].data == last.data + data
            else
              |u.unsent| == |t.unsent| + 1 && u.unsent[..k + 1] == t.unsent && u.unsent[k + 1].data == data
  {
    assert data[..|data|] == data;
    var s := TxSeg(t.lbb, data, false, false, if copy then 1 else 2);
    assert NewSegs(t.lbb, data, false, false, copy, mss) == [s];
    assert [s][1..] == [];
  }
}
