/**
 The invariant of the send side and its preservation by every step, hence over all
 interleavings of enqueueing, output, retransmission and acknowledgement.
 */
module TcpSendRuns {
  import opened Basics
  import opened SeqNum
  import opened TcpTransmit
  import opened TcpQueues

  /** Buffer accounting. Once the FIN has been queued snd_buf is right modulo 2^16 only. */
  ghost predicate Accounts(t: Tx, l: Limits) {
    && l.sndBuf <= 0xffff
    && t.lbb <= t.lastack + l.sndBuf + (if t.finQueued then 1 else 0)
    && 0 <= t.buf <= 0xffff
    && (t.buf + (t.lbb - t.lastack)) % 0x1_0000 == l.sndBuf % 0x1_0000
    && (!t.finQueued ==> t.buf + (t.lbb - t.lastack) == l.sndBuf)
    && t.qlen == Clen(t.unacked) + Clen(t.unsent) && 0 <= t.qlen <= l.queueLen
  }

  /** Every position from lastack up to snd_lbb is carried by exactly one queued segment. */
  ghost predicate Covered(t: Tx) {
    && AtMostOnce(t.unacked + t.unsent)
    && forall n :: t.lastack <= n < t.lbb ==> Cover(t.unacked + t.unsent, n) == 1
  }

  /** Every queued segment carries what was enqueued at its positions. */
  ghost predicate Faithful(t: Tx, base: int, log: seq<Unit>) {
    && base <= t.lastack && t.lbb == base + |log|
    && (forall s :: s in t.unacked ==> Carries(s, base, log))
    && (forall s :: s in t.unsent ==> Carries(s, base, log))
  }

  /** `unacked` is sorted and was sent; nothing queued lies far behind what was sent. */
  ghost predicate Ordered(t: Tx) {
    && t.lastack <= t.nxt <= t.lastack + SPAN && t.nxt <= t.lbb
    && Sorted(t.unacked)
    && (forall s :: s in t.unacked ==> t.lastack <= s.End() <= t.nxt)
    && FreshTail(t.unsent, t.nxt)
    && (forall s :: s in t.unsent ==> t.nxt <= s.End() + SPAN)
  }

  ghost predicate TxOk(t: Tx, base: int, log: seq<Unit>, l: Limits) {
    Accounts(t, l) && Covered(t) && Faithful(t, base, log) && Ordered(t)
  }

  // ----- sending the first unsent segment

  /** Members of the two queues do not overlap. */
  lemma Disjoint(t: Tx, base: int, log: seq<Unit>, x: TxSeg, y: TxSeg)
    requires AtMostOnce(t.unacked + t.unsent) && Faithful(t, base, log)
    requires x in t.unacked && y in t.unsent
    ensures x.End() <= y.pos || y.End() <= x.pos
  {
    var i :| 0 <= i < |t.unacked| && t.unacked[i] == x;
    var j :| 0 <= j < |t.unsent| && t.unsent[j] == y;
    var q := t.unacked + t.unsent;
    assert q[i] == x && q[|t.unacked| + j] == y;
    if x.pos <= y.pos {
      Apart(q, i, |t.unacked| + j);
    } else {
      Apart(q, |t.unacked| + j, i);
    }
  }

  lemma SendHeadCounts(t: Tx, l: Limits)
    requires t.unsent != [] && Accounts(t, l) && Covered(t)
    ensures Accounts(SendHead(t), l) && Covered(SendHead(t))
  {
    var s, u := t.unsent[0], SendHead(t);
    assert t.unsent == [s] + t.unsent[1..];
    ClenConcat([s], t.unsent[1..]);
    InsertSortedCounts(t.unacked, s, 0);
    forall n
      ensures Cover(u.unacked + u.unsent, n) == Cover(t.unacked + t.unsent, n)
    {
      InsertSortedCounts(t.unacked, s, n);
      CoverConcat(t.unacked, t.unsent, n);
      CoverConcat([s], t.unsent[1..], n);
      CoverConcat(u.unacked, u.unsent, n);
    }
  }

  lemma SendHeadOrder(t: Tx, base: int, log: seq<Unit>, wnd: nat)
    requires Covered(t) && Faithful(t, base, log) && Ordered(t)
    requires FitsWindow(t, wnd) && wnd <= 0xffff && t.lbb <= t.lastack + 2 * SPAN
    ensures Faithful(SendHead(t), base, log) && Ordered(SendHead(t))
  {
    var s, u := t.unsent[0], SendHead(t);
    InsertSortedMembers(t.unacked, s);
    assert s in t.unsent && Carries(s, base, log);
    forall x | x in t.unacked ensures x.pos != s.pos {
      assert Carries(x, base, log);
      Disjoint(t, base, log, x, s);
    }
    InsertSortedSorted(t.unacked, s);
    assert t.lastack <= s.DataEnd() <= t.lastack + wnd by {
      WindowNear(t, base, log, wnd);
    }
    assert forall x :: x in u.unsent ==> x in t.unsent;
    forall i | 0 <= i < |u.unsent| ensures u.nxt <= u.unsent[i].End() + SPAN {
      assert u.unsent[i] == t.unsent[i + 1] && u.unsent[i] in t.unsent;
    }
  }

  /** The 32-bit window comparison lets nothing pass that ends below lastack. */
  lemma WindowNear(t: Tx, base: int, log: seq<Unit>, wnd: nat)
    requires Faithful(t, base, log) && Ordered(t) && FitsWindow(t, wnd) && wnd <= 0xffff
    requires t.lbb <= t.lastack + 2 * SPAN
    ensures t.lastack <= t.unsent[0].DataEnd() <= t.lastack + wnd
  {
    var d := t.unsent[0].DataEnd() - t.lastack;
    assert t.unsent[0] in t.unsent;
    assert -2 * SPAN <= d <= 2 * SPAN;
    if d < 0 {
      ModShift(d, 1);
      assert false;
    }
  }

  // ----- retransmission

  lemma RexmitCounts(t: Tx, l: Limits)
    requires Accounts(t, l) && Covered(t)
    ensures Accounts(Rexmit(t), l) && Covered(Rexmit(t))
  {
    if t.unacked != [] {
      var s, u := t.unacked[0], Rexmit(t);
      assert t.unacked == [s] + t.unacked[1..];
      ClenConcat([s], t.unacked[1..]);
      InsertSortedCounts(t.unsent, s, 0);
      forall n
        ensures Cover(u.unacked + u.unsent, n) == Cover(t.unacked + t.unsent, n)
      {
        InsertSortedCounts(t.unsent, s, n);
        CoverConcat(t.unacked, t.unsent, n);
        CoverConcat([s], t.unacked[1..], n);
        CoverConcat(u.unacked, u.unsent, n);
      }
    }
  }

  lemma RexmitOrder(t: Tx, base: int, log: seq<Unit>)
    requires Covered(t) && Faithful(t, base, log) && Ordered(t)
    ensures Faithful(Rexmit(t), base, log) && Ordered(Rexmit(t))
  {
    if t.unacked != [] {
      var s, u := t.unacked[0], Rexmit(t);
      assert s in t.unacked && Carries(s, base, log);
      InsertSortedMembers(t.unsent, s);
      forall x | x in t.unsent && x.pos < s.pos ensures x.End() <= s.pos {
        assert Carries(x, base, log);
        Disjoint(t, base, log, s, x);
      }
      InsertSortedFresh(t.unsent, s, t.nxt);
      assert forall x :: x in u.unacked ==> x in t.unacked;
    }
  }

  lemma RexmitAllCounts(t: Tx, l: Limits)
    requires Accounts(t, l) && Covered(t)
    ensures Accounts(RexmitAll(t), l) && Covered(RexmitAll(t))
  {
    ClenConcat(t.unacked, t.unsent);
    assert [] + (t.unacked + t.unsent) == t.unacked + t.unsent;
  }

  lemma RexmitAllOrder(t: Tx, base: int, log: seq<Unit>)
    requires Faithful(t, base, log) && Ordered(t)
    ensures Faithful(RexmitAll(t), base, log) && Ordered(RexmitAll(t))
  {
    var q, k := t.unacked + t.unsent, |t.unacked|;
    assert forall i :: 0 <= i < k ==> q[i] == t.unacked[i] && t.unacked[i] in t.unacked;
    forall i, j | 0 <= i < j < |q| && q[i].End() > t.nxt ensures q[i].End() <= q[j].pos {
      assert q[i] == t.unsent[i - k] && q[j] == t.unsent[j - k];
    }
  }

  lemma RexmitOk(t: Tx, base: int, log: seq<Unit>, l: Limits)
    requires TxOk(t, base, log, l)
    ensures TxOk(Rexmit(t), base, log, l) && TxOk(RexmitAll(t), base, log, l)
    ensures t.unacked != [] ==> Rexmit(t).unacked == t.unacked[1..] && t.unacked[0] in Rexmit(t).unsent
    ensures RexmitAll(t).unacked == [] && RexmitAll(t).unsent == t.unacked + t.unsent
  {
    Requeued(t);
    hide Accounts, Covered, Faithful, Ordered, Rexmit, RexmitAll;
    RexmitCounts(t, l);
    RexmitOrder(t, base, log);
    RexmitAllCounts(t, l);
    RexmitAllOrder(t, base, log);
  }

  lemma Requeued(t: Tx)
    ensures t.unacked != [] ==> Rexmit(t).unacked == t.unacked[1..] && t.unacked[0] in Rexmit(t).unsent
    ensures RexmitAll(t).unacked == [] && RexmitAll(t).unsent == t.unacked + t.unsent
  {
    if t.unacked != [] {
      InsertSortedMembers(t.unsent, t.unacked[0]);
    } else {
      assert [] + t.unsent == t.unsent;
    }
  }

  // ----- acknowledgement

  // The segments an ACK frees from each queue.
  function FreedUnacked(t: Tx, a: int): seq<TxSeg> {
    if t.lastack < a <= t.nxt then t.unacked[..AckedRun(t.unacked, a)] else []
  }

  function FreedUnsent(t: Tx, a: int): seq<TxSeg> {
    t.unsent[..RequeuedRun(t.unsent, a, t.nxt)]
  }

  /** Does the ACK free segments of `unsent` that were never sent? It does exactly for numbers
      2^31 behind the end of the first one. */
  predicate Stale(t: Tx, a: int) {
    Misfires(t.unsent, a, t.nxt)
  }

  /** An acknowledgement number, as a position. */
  predicate AckRange(t: Tx, a: int) {
    t.nxt - HALF32 <= a < t.nxt + HALF32
  }

  lemma UnsentNear(t: Tx, base: int, log: seq<Unit>, l: Limits)
    requires TxOk(t, base, log, l)
    ensures EndsNear(t.unsent, t.nxt) && FreshTail(t.unsent, t.nxt)
    ensures t.lastack <= t.nxt <= t.lastack + SPAN
    ensures forall s :: s in t.unsent ==> s.pos < s.End() <= t.lbb
  {
    hide Cover, Clen, AtMostOnce;
    forall i | 0 <= i < |t.unsent| ensures t.nxt - SPAN <= t.unsent[i].End() <= t.nxt + SPAN {
      assert t.unsent[i] in t.unsent && Carries(t.unsent[i], base, log);
    }
  }

  /** What is freed is taken off the heads of the queues, and is acknowledged in full except in
      the one case where everything unsent is thrown away. */
  lemma FreedAcked(t: Tx, a: int, base: int, log: seq<Unit>, l: Limits)
    requires TxOk(t, base, log, l) && AckRange(t, a)
    ensures t.unacked == FreedUnacked(t, a) + Ack(t, a).unacked
    ensures t.unsent == FreedUnsent(t, a) + Ack(t, a).unsent
    ensures (forall s :: s in FreedUnacked(t, a) + FreedUnsent(t, a) ==> s.End() <= a <= t.nxt) <==> !Stale(t, a)
    ensures Stale(t, a) ==> FreedUnacked(t, a) == [] && FreedUnsent(t, a) == t.unsent
  {
    hide TxOk, Ack, RequeuedRun;
    UnsentNear(t, base, log, l);
    FreedParts(t, a);
    FreedUnackedBelow(t, a);
    if Stale(t, a) {
      MisfireAll(t.unsent, a, t.nxt);
      assert t.unsent[0] in FreedUnsent(t, a) && t.unsent[0].End() > t.nxt;
    } else {
      RequeuedRunIs(t.unsent, a, t.nxt);
      AckedRunBelow(t.unsent, a);
      hide EndsNear, FreshTail, AckedRun;
    }
  }

  lemma FreedParts(t: Tx, a: int)
    ensures t.unacked == FreedUnacked(t, a) + Ack(t, a).unacked
    ensures t.unsent == FreedUnsent(t, a) + Ack(t, a).unsent
  {
    hide Clen, RequeuedRun, AckedRun;
  }

  lemma FreedUnackedBelow(t: Tx, a: int)
    ensures forall s :: s in FreedUnacked(t, a) ==> s.End() <= a <= t.nxt
  {
    hide Clen, AckedRun;
    AckedRunBelow(t.unacked, a);
  }

  lemma DataCounts(t: Tx, a: int, l: Limits)
    requires Accounts(t, l) && t.nxt <= t.lbb
    ensures Accounts(AckData(t, a), l)
  {
    AckedRunCounts(t.unacked, a, a);
  }

  lemma RequeuedCounts(t: Tx, a: int, l: Limits)
    requires Accounts(t, l)
    ensures Accounts(AckRequeued(t, a), l)
  {
    hide RequeuedRun;
    var m := RequeuedRun(t.unsent, a, t.nxt);
    assert t.unsent == t.unsent[..m] + t.unsent[m..];
    ClenConcat(t.unsent[..m], t.unsent[m..]);
  }

  lemma DataCovered(t: Tx, a: int)
    requires Covered(t)
    ensures Covered(AckData(t, a))
  {
    var u := AckData(t, a);
    forall n ensures Cover(u.unacked + u.unsent, n) <= 1
      ensures u.lastack <= n < u.lbb ==> Cover(u.unacked + u.unsent, n) == 1
    {
      CoverConcat(t.unacked, t.unsent, n);
      CoverConcat(u.unacked, u.unsent, n);
      AckedRunCounts(t.unacked, a, n);
    }
  }

  lemma RequeuedCovered(t: Tx, a: int)
    requires Covered(t) && (a <= t.nxt ==> a <= t.lastack)
    requires RequeuedRun(t.unsent, a, t.nxt) == if a <= t.nxt then AckedRun(t.unsent, a) else 0
    ensures Covered(AckRequeued(t, a))
  {
    hide RequeuedRun;
    var u := AckRequeued(t, a);
    assert t.unsent[0..] == t.unsent;
    forall n ensures Cover(u.unacked + u.unsent, n) <= 1
      ensures u.lastack <= n < u.lbb ==> Cover(u.unacked + u.unsent, n) == 1
    {
      CoverConcat(t.unacked, t.unsent, n);
      CoverConcat(u.unacked, u.unsent, n);
      AckedRunCounts(t.unsent, a, n);
    }
  }

  /** Positions never sent were carried by `unsent` alone. */
  lemma StaleUncovered(t: Tx, a: int, base: int, log: seq<Unit>, l: Limits)
    requires TxOk(t, base, log, l) && AckRange(t, a) && Stale(t, a)
    ensures Ack(t, a) == t.(unsent := [], qlen := Clen(t.unacked))
    ensures forall n :: t.nxt <= n < t.lbb ==> Cover(Ack(t, a).unacked + Ack(t, a).unsent, n) == 0
    ensures t.nxt < t.lbb
  {
    UnsentNear(t, base, log, l);
    MisfireAll(t.unsent, a, t.nxt);
    assert t.unsent[0] in t.unsent;
    hide Cover, Carries, AtMostOnce, RequeuedRun, AckedRun, Clen;
    assert t.unsent[|t.unsent|..] == [] && t.unsent[..|t.unsent|] == t.unsent;
    assert t.unacked + [] == t.unacked;
    forall n | t.nxt <= n < t.lbb ensures Cover(t.unacked, n) == 0 {
      forall i | 0 <= i < |t.unacked| ensures t.unacked[i].End() <= n {
        assert t.unacked[i] in t.unacked;
      }
      CoverNone(t.unacked, n);
    }
  }

  lemma DataOrder(t: Tx, a: int, base: int, log: seq<Unit>)
    requires Covered(t) && Faithful(t, base, log) && Ordered(t)
    ensures Faithful(AckData(t, a), base, log) && Ordered(AckData(t, a))
  {
    hide Cover, Carries, Clen, AckedRun, AtMostOnce;
    assert forall s :: s in AckData(t, a).unacked ==> s in t.unacked;
    LeftAbove(t, a, base, log);
  }

  /** What stays on unacked ends above the acknowledgement. */
  lemma LeftAbove(t: Tx, a: int, base: int, log: seq<Unit>)
    requires Covered(t) && Faithful(t, base, log) && Ordered(t)
    ensures forall s :: s in t.unacked[AckedRun(t.unacked, a)..] ==> a <= s.End()
  {
    hide Cover, Carries, AckedRun, AtMostOnce, FreshTail;
    var k := AckedRun(t.unacked, a);
    AckedRunBelow(t.unacked, a);
    forall s | s in t.unacked[k..] ensures a <= s.End() {
      var i :| k <= i < |t.unacked| && t.unacked[i] == s;
      LaterEndsLater(t, base, log, k, i);
    }
  }

  lemma LaterEndsLater(t: Tx, base: int, log: seq<Unit>, i: nat, j: nat)
    requires AtMostOnce(t.unacked + t.unsent) && Faithful(t, base, log) && Sorted(t.unacked)
    requires i <= j < |t.unacked|
    ensures t.unacked[i].End() <= t.unacked[j].End()
    ensures i < j ==> t.unacked[i].End() <= t.unacked[j].pos
  {
    var q := t.unacked + t.unsent;
    assert q[i] == t.unacked[i] && q[j] == t.unacked[j];
    assert t.unacked[i] in t.unacked && t.unacked[j] in t.unacked;
    if i < j {
      Apart(q, i, j);
    }
  }

  lemma RequeuedOrder(t: Tx, a: int, base: int, log: seq<Unit>)
    requires Faithful(t, base, log) && Ordered(t)
    ensures Faithful(AckRequeued(t, a), base, log) && Ordered(AckRequeued(t, a))
  {
    var u := AckRequeued(t, a);
    assert forall s :: s in u.unsent ==> s in t.unsent;
  }

  lemma AckDataOk(t: Tx, a: int, base: int, log: seq<Unit>, l: Limits)
    requires TxOk(t, base, log, l)
    ensures TxOk(AckData(t, a), base, log, l)
  {
    DataCounts(t, a, l);
    DataCovered(t, a);
    DataOrder(t, a, base, log);
  }

  lemma AckRequeuedOk(t: Tx, a: int, base: int, log: seq<Unit>, l: Limits)
    requires TxOk(t, base, log, l) && AckRange(t, a) && !Stale(t, a) && (a <= t.nxt ==> a <= t.lastack)
    ensures TxOk(AckRequeued(t, a), base, log, l)
  {
    UnsentNear(t, base, log, l);
    RequeuedRunIs(t.unsent, a, t.nxt);
    hide AckRequeued, Accounts, Covered, Faithful, Ordered, RequeuedRun, AckedRun;
    RequeuedCounts(t, a, l);
    RequeuedCovered(t, a);
    RequeuedOrder(t, a, base, log);
  }

  /** ACK processing keeps the invariant unless it throws away what was never sent. */
  lemma AckOk(t: Tx, a: int, base: int, log: seq<Unit>, l: Limits)
    requires TxOk(t, base, log, l) && AckRange(t, a)
    ensures TxOk(Ack(t, a), base, log, l) <==> !Stale(t, a)
  {
    hide AckData, AckRequeued, Accounts, Faithful, Ordered;
    AckedNow(t, a);
    if Stale(t, a) {
      StaleUncovered(t, a, base, log, l);
      assert Cover(Ack(t, a).unacked + Ack(t, a).unsent, t.nxt) == 0;
      assert t.lastack <= t.nxt by { UnsentNear(t, base, log, l); }
      assert !Covered(Ack(t, a));
    } else {
      hide Covered;
      AckDataOk(t, a, base, log, l);
      AckRequeuedOk(AckData(t, a), a, base, log, l);
    }
  }

  /** The same for a 32-bit acknowledgement number, which stands for one position. */
  lemma AckAnyOk(t: Tx, ackno: u32, base: int, log: seq<Unit>, l: Limits)
    requires TxOk(t, base, log, l)
    ensures var a := Position(ackno, t.nxt);
            Wrap(a) == ackno && AckRange(t, a) && (TxOk(Ack(t, a), base, log, l) <==> !Stale(t, a))
  {
    hide TxOk, Position, Ack, Stale;
    var a := Position(ackno, t.nxt);
    PositionIs(ackno, t.nxt);
    AckOk(t, a, base, log, l);
  }

  lemma AckedNow(t: Tx, a: int)
    ensures AckData(t, a).lastack == if t.lastack < a <= t.nxt then a else t.lastack
    ensures AckData(t, a).nxt == t.nxt && (a <= t.nxt ==> a <= AckData(t, a).lastack)
    ensures AckData(t, a).unsent == t.unsent && AckData(t, a).lbb == t.lbb
  {
  }

  // ----- what is reported as acknowledged

  /** Subtract one for each FIN, but not below zero. */
  function LessFins(acked: nat, fins: nat): nat {
    if acked > fins then acked - fins else 0
  }

  /** pcb->acked after ACK processing: a 16-bit difference, less the FIN segments freed. */
  function Reported(t: Tx, a: int): nat {
    LessFins(if t.lastack < a <= t.nxt then (a - t.lastack) % 0x1_0000 else 0,
             Fins(FreedUnacked(t, a)) + Fins(FreedUnsent(t, a)))
  }

  /** A FIN is enqueued last and once. */
  predicate FinLast(log: seq<Unit>, finQueued: bool) {
    forall i :: 0 <= i < |log| && log[i] == Fin ==> i == |log| - 1 && finQueued
  }

  /** The segment carrying the last position, and no other, carries the FIN if there is one. */
  lemma FinAtEnd(s: TxSeg, base: int, log: seq<Unit>, fq: bool)
    requires Carries(s, base, log) && FinLast(log, fq)
    ensures s.fin ==> s.End() == base + |log| && log[|log| - 1] == Fin
    ensures log[|log| - 1] == Fin ==> (s.fin <==> s.pos <= base + |log| - 1 < s.End())
  {
    UnitsLen(s);
    var u := s.Units();
    assert u[s.Len() - 1] == log[s.End() - base - 1];
    if s.fin {
      assert u[s.Len() - 1] == Fin;
    } else {
      assert u[s.Len() - 1] != Fin;
    }
  }

  /** The application is told of everything the ACK acknowledged except a FIN, unless that is a
      full 64 kB, of which nothing is reported. */
  lemma ReportedIs(t: Tx, a: int, base: int, log: seq<Unit>, l: Limits)
    requires TxOk(t, base, log, l) && AckRange(t, a) && FinLast(log, t.finQueued)
    ensures t.lastack < a <= t.nxt ==>
              Reported(t, a) == (if a - t.lastack == 0x1_0000 then 0
                                 else a - t.lastack - if log[a - 1 - base] == Fin then 1 else 0)
    ensures !(t.lastack < a <= t.nxt) ==> Reported(t, a) == 0
  {
    hide TxOk, AckRange, FinLast, FreedUnacked, FreedUnsent;
    if t.lastack < a <= t.nxt {
      UnsentNear(t, base, log, l);
      FinsFreed(t, a, base, log, l);
    }
  }

  lemma FinsFreed(t: Tx, a: int, base: int, log: seq<Unit>, l: Limits)
    requires TxOk(t, base, log, l) && AckRange(t, a) && FinLast(log, t.finQueued) && t.lastack < a <= t.nxt
    ensures base < a <= base + |log|
    ensures Fins(FreedUnacked(t, a)) + Fins(FreedUnsent(t, a)) == if log[a - 1 - base] == Fin then 1 else 0
  {
    hide TxOk, FreedUnacked, FreedUnsent, Carries, FinLast, Fins;
    var x, y := FreedUnacked(t, a), FreedUnsent(t, a);
    FinsConcat(x, y);
    FreedCarries(t, a, base, log, l);
    if log[a - 1 - base] == Fin {
      LastAcked(t, a, base, log, l);
      AllFreed(t, a, base, log, l);
      FinsAtEnd(x + y, base, log, t.finQueued);
    } else {
      FinsBefore(x + y, a, base, log, t.finQueued);
    }
  }

  /** An ACK of the FIN acknowledges everything enqueued. */
  lemma LastAcked(t: Tx, a: int, base: int, log: seq<Unit>, l: Limits)
    requires TxOk(t, base, log, l) && FinLast(log, t.finQueued) && t.lastack < a <= t.nxt
    requires base < a <= base + |log| && log[a - 1 - base] == Fin
    ensures a == t.nxt == t.lbb == base + |log| && Cover(t.unacked + t.unsent, base + |log| - 1) == 1
  {
    hide Carries, Sorted, FreshTail, Clen;
  }

  lemma FreedCarries(t: Tx, a: int, base: int, log: seq<Unit>, l: Limits)
    requires TxOk(t, base, log, l) && AckRange(t, a) && t.lastack < a <= t.nxt
    ensures forall s :: s in FreedUnacked(t, a) + FreedUnsent(t, a) ==> Carries(s, base, log) && s.End() <= a
    ensures base < a <= base + |log|
  {
    FreedAcked(t, a, base, log, l);
    UnsentNear(t, base, log, l);
    hide Carries, Cover, Clen, Accounts, Covered, AckedRun, RequeuedRun;
    forall s | s in FreedUnacked(t, a) ensures s in t.unacked {
    }
    forall s | s in FreedUnsent(t, a) ensures s in t.unsent {
    }
  }

  lemma FinsAtEnd(q: seq<TxSeg>, base: int, log: seq<Unit>, fq: bool)
    requires (forall s :: s in q ==> Carries(s, base, log)) && FinLast(log, fq)
    requires log != [] && log[|log| - 1] == Fin
    ensures Fins(q) == Cover(q, base + |log| - 1)
  {
    forall s: TxSeg | s in q ensures s.fin <==> s.pos <= base + |log| - 1 < s.End() {
      FinAtEnd(s, base, log, fq);
    }
    FinsCover(q, base + |log| - 1);
  }

  lemma FinsBefore(q: seq<TxSeg>, a: int, base: int, log: seq<Unit>, fq: bool)
    requires (forall s :: s in q ==> Carries(s, base, log) && s.End() <= a) && FinLast(log, fq)
    requires base < a <= base + |log| && log[a - 1 - base] != Fin
    ensures Fins(q) == 0
  {
    forall s: TxSeg | s in q ensures !s.fin {
      FinAtEnd(s, base, log, fq);
    }
    FinsNone(q);
  }

  /** An ACK of everything enqueued empties both queues. */
  lemma AllFreed(t: Tx, a: int, base: int, log: seq<Unit>, l: Limits)
    requires TxOk(t, base, log, l) && t.lastack < a == t.nxt == t.lbb
    ensures FreedUnacked(t, a) == t.unacked && FreedUnsent(t, a) == t.unsent
  {
    UnsentNear(t, base, log, l);
    RequeuedRunIs(t.unsent, a, t.nxt);
    hide AckedRun, RequeuedRun, Cover, Clen, Carries;
    AckedRunBelow(t.unacked, a);
    AckedRunBelow(t.unsent, a);
    assert forall i :: 0 <= i < |t.unsent| ==> t.unsent[i] in t.unsent;
    assert forall i :: 0 <= i < |t.unacked| ==> t.unacked[i] in t.unacked;
  }

  /** Accepting the SYN|ACK is the acknowledgement of our SYN. */
  lemma SynAckedIsAck(t: Tx, base: int, log: seq<Unit>, l: Limits)
    requires TxOk(t, base, log, l)
    requires t.unacked != [] && t.unacked[0].syn && t.lastack == t.unacked[0].pos
    ensures SynAcked(t) == AckData(t, t.lastack + 1)
    ensures TxOk(SynAcked(t), base, log, l)
  {
    hide AckedRun, AtMostOnce, Sorted, Accounts, FreshTail;
    var s, a := t.unacked[0], t.lastack + 1;
    assert s in t.unacked && Carries(s, base, log);
    SynRun(t, base, log, a);
    AckDataOk(t, a, base, log, l);
    assert t.unacked[..1] == [s] && Clen([s]) == s.clen + Clen([]);
  }

  lemma SynRun(t: Tx, base: int, log: seq<Unit>, a: int)
    requires AtMostOnce(t.unacked + t.unsent) && Faithful(t, base, log) && Sorted(t.unacked)
    requires t.unacked != [] && t.unacked[0].End() == a
    ensures AckedRun(t.unacked, a) == 1
  {
    if |t.unacked| > 1 {
      LaterEndsLater(t, base, log, 0, 1);
      assert t.unacked[1] in t.unacked && Carries(t.unacked[1], base, log);
    }
    assert AckedRun(t.unacked[1..], a) == 0;
  }

  // ----- enqueueing

  /** Joining a new segment to the last unsent one carries both contents. */
  lemma JoinIs(u: TxSeg, s: TxSeg, mss: nat)
    requires Joinable(u, s, mss) && (s.fin ==> s.data == [])
    ensures var j := Join(u, s); j.pos == u.pos && j.End() == u.End() + s.Len() && j.Units() == u.Units() + s.Units()
    ensures Join(u, s).clen == u.clen + if s.fin then 0 else 1
    ensures !Join(u, s).syn && u.End() == s.pos
  {
  }

  lemma AppendCounts(unsent: seq<TxSeg>, q: seq<TxSeg>, mss: nat, n: int)
    requires q != [] && q[0].clen >= 1 && (q[0].fin ==> q[0].data == [] && |q| == 1)
    ensures Cover(Append(unsent, q, mss), n) == Cover(unsent, n) + Cover(q, n)
    ensures Clen(Append(unsent, q, mss)) <= Clen(unsent) + Clen(q)
  {
    var k := |unsent| - 1;
    if unsent != [] && Joinable(unsent[k], q[0], mss) {
      var u, r := unsent[k], if q[0].fin then [] else q[1..];
      JoinIs(u, q[0], mss);
      var j := Join(u, q[0]);
      assert unsent == unsent[..k] + [u] + [] && q == [] + [q[0]] + q[1..];
      assert q[0].fin ==> q[1..] == [];
      hide Join, Joinable, Cover, Clen;
      CountsAround(unsent[..k], u, [], n);
      CountsAround([], q[0], q[1..], n);
      CountsAround(unsent[..k], j, r, n);
      CountsNone(n);
    } else {
      hide Cover, Clen, Joinable;
      CoverConcat(unsent, q, n);
      ClenConcat(unsent, q);
    }
  }

  lemma CountsNone(n: int)
    ensures Cover([], n) == 0 && Clen([]) == 0
  {
  }

  lemma CountsAround(front: seq<TxSeg>, s: TxSeg, back: seq<TxSeg>, n: int)
    ensures Cover(front + [s] + back, n) == Cover(front, n) + (if s.pos <= n < s.End() then 1 else 0) + Cover(back, n)
    ensures Clen(front + [s] + back) == Clen(front) + s.clen + Clen(back)
  {
    CoverConcat(front + [s], back, n);
    CoverConcat(front, [s], n);
    ClenConcat(front + [s], back);
    ClenConcat(front, [s]);
    assert [s][1..] == [];
    assert Cover([s], n) == (if s.pos <= n < s.End() then 1 else 0) + Cover([], n) && Clen([s]) == s.clen + Clen([]);
  }

  /** Older contents stay valid as the log grows. */
  lemma CarriesMore(s: TxSeg, base: int, log: seq<Unit>, more: seq<Unit>)
    requires Carries(s, base, log)
    ensures Carries(s, base, log + more)
  {
    assert (log + more)[..|log|] == log;
    assert (log + more)[s.pos - base..s.End() - base] == log[s.pos - base..s.End() - base];
  }

  lemma JoinCarries(u: TxSeg, s: TxSeg, mss: nat, base: int, log: seq<Unit>)
    requires Joinable(u, s, mss) && mss <= 0xffff && (s.fin ==> s.data == [])
    requires Carries(u, base, log) && Carries(s, base, log)
    ensures Carries(Join(u, s), base, log)
  {
    JoinIs(u, s, mss);
    assert log[u.pos - base..u.End() - base] + log[s.pos - base..s.End() - base] == log[u.pos - base..s.End() - base];
  }

  /** What tcp_enqueue is called with: data, or a lone SYN first of all, or a lone FIN last. */
  predicate EnqueueArgs(t: Tx, base: int, data: seq<byte>, syn: bool, fin: bool, mss: nat, l: Limits) {
    && 0 < mss <= 0xffff && !t.finQueued
    && !(syn && fin) && (syn || fin ==> data == [])
    && (syn ==> t.lbb == base && l.sndBuf > 0)
  }

  lemma NewHead(pos: int, data: seq<byte>, syn: bool, fin: bool, copy: bool, mss: nat)
    requires mss > 0 && (syn || fin ==> data == [])
    ensures var q := NewSegs(pos, data, syn, fin, copy, mss);
            && q[0].clen == (if copy || q[0].data == [] then 1 else 2) && q[0].fin == fin
            && (fin ==> q[0].data == [] && |q| == 1)
            && (data != [] || syn || fin ==> q[0].Len() > 0)
  {
  }

  lemma EnqueueAccounts(t: Tx, base: int, data: seq<byte>, syn: bool, fin: bool, copy: bool, mss: nat, mem: bool, l: Limits)
    requires Accounts(t, l) && base <= t.lastack <= t.lbb && EnqueueArgs(t, base, data, syn, fin, mss, l)
    ensures var r := Enqueue(t, data, syn, fin, copy, mss, mem, l); r.Some? ==> Accounts(r.value, l)
  {
    var q := NewSegs(t.lbb, data, syn, fin, copy, mss);
    NewHead(t.lbb, data, syn, fin, copy, mss);
    AppendCounts(t.unsent, q, mss, 0);
    hide Append, NewSegs;
  }

  lemma BelowLbb(t: Tx, base: int, log: seq<Unit>, n: int)
    requires Faithful(t, base, log) && n >= t.lbb
    ensures Cover(t.unacked + t.unsent, n) == 0
  {
    var q := t.unacked + t.unsent;
    forall i | 0 <= i < |q| ensures q[i].End() <= t.lbb {
      assert q[i] in t.unacked || q[i] in t.unsent;
    }
    CoverNone(q, n);
  }

  lemma EnqueueCovered(t: Tx, base: int, log: seq<Unit>, data: seq<byte>, syn: bool, fin: bool, copy: bool, mss: nat)
    requires Covered(t) && Faithful(t, base, log)
    requires mss > 0 && !(syn && fin) && (syn || fin ==> data == [])
    ensures var q := NewSegs(t.lbb, data, syn, fin, copy, mss);
            Covered(t.(unsent := Append(t.unsent, q, mss), lbb := t.lbb + |UnitsOf(data, syn, fin)|))
  {
    var q := NewSegs(t.lbb, data, syn, fin, copy, mss);
    var unsent := Append(t.unsent, q, mss);
    NewHead(t.lbb, data, syn, fin, copy, mss);
    forall n
      ensures Cover(t.unacked + unsent, n) <= 1
      ensures t.lastack <= n < t.lbb + |UnitsOf(data, syn, fin)| ==> Cover(t.unacked + unsent, n) == 1
    {
      NewSegsTile(t.lbb, data, syn, fin, copy, mss, n);
      AppendCounts(t.unsent, q, mss, n);
      CoverConcat(t.unacked, t.unsent, n);
      CoverConcat(t.unacked, unsent, n);
      if n >= t.lbb {
        BelowLbb(t, base, log, n);
      }
      hide Append, NewSegs, UnitsOf;
    }
  }

  lemma EnqueueFaithful(t: Tx, base: int, log: seq<Unit>, data: seq<byte>, syn: bool, fin: bool, copy: bool, mss: nat)
    requires Faithful(t, base, log)
    requires 0 < mss <= 0xffff && !(syn && fin) && (syn || fin ==> data == []) && (data != [] || syn || fin)
    ensures var q, more := NewSegs(t.lbb, data, syn, fin, copy, mss), UnitsOf(data, syn, fin);
            Faithful(t.(unsent := Append(t.unsent, q, mss), lbb := t.lbb + |more|), base, log + more)
  {
    var q, more := NewSegs(t.lbb, data, syn, fin, copy, mss), UnitsOf(data, syn, fin);
    var log' := log + more;
    assert log'[|log|..] == more;
    NewSegsCarry(t.lbb, data, syn, fin, copy, mss, base, log');
    NewHead(t.lbb, data, syn, fin, copy, mss);
    hide NewSegs, UnitsOf, Carries, Join, Joinable;
    forall s | s in t.unacked || s in t.unsent ensures Carries(s, base, log') {
      CarriesMore(s, base, log, more);
    }
    var k := |t.unsent| - 1;
    assert q[0] in q;
    if t.unsent != [] && Joinable(t.unsent[k], q[0], mss) {
      assert t.unsent[k] in t.unsent;
      JoinCarries(t.unsent[k], q[0], mss, base, log');
    }
  }

  lemma EnqueueOrdered(t: Tx, base: int, log: seq<Unit>, data: seq<byte>, syn: bool, fin: bool, copy: bool, mss: nat)
    requires Faithful(t, base, log) && Ordered(t)
    requires mss > 0 && !(syn && fin) && (syn || fin ==> data == []) && (data != [] || syn || fin)
    ensures var q, more := NewSegs(t.lbb, data, syn, fin, copy, mss), UnitsOf(data, syn, fin);
            Ordered(t.(unsent := Append(t.unsent, q, mss), lbb := t.lbb + |more|))
  {
    var q := NewSegs(t.lbb, data, syn, fin, copy, mss);
    NewSegsOrder(t.lbb, data, syn, fin, copy, mss);
    NewHead(t.lbb, data, syn, fin, copy, mss);
    forall i | 0 <= i < |t.unsent| ensures t.unsent[i].End() <= t.lbb && t.nxt <= t.unsent[i].End() + SPAN {
      assert t.unsent[i] in t.unsent && Carries(t.unsent[i], base, log);
    }
    hide NewSegs, Carries, UnitsOf, FreshTail, Append;
    AppendOrder(t.unsent, q, mss, t.nxt, t.lbb);
  }

  lemma AppendOrder(unsent: seq<TxSeg>, q: seq<TxSeg>, mss: nat, nxt: int, lbb: int)
    requires q != [] && (q[0].fin ==> q[0].data == [] && |q| == 1) && Ascending(q, lbb) && nxt <= lbb
    requires FreshTail(unsent, nxt)
    requires forall i :: 0 <= i < |unsent| ==> unsent[i].End() <= lbb && nxt <= unsent[i].End() + SPAN
    ensures FreshTail(Append(unsent, q, mss), nxt)
    ensures forall x :: x in Append(unsent, q, mss) ==> nxt <= x.End() + SPAN
  {
    var r, k := Append(unsent, q, mss), |unsent| - 1;
    if unsent != [] && Joinable(unsent[k], q[0], mss) {
      JoinIs(unsent[k], q[0], mss);
      hide Join, Joinable;
      assert r[k] == Join(unsent[k], q[0]);
    } else {
      assert forall i :: 0 <= i < |r| ==> r[i] == if i <= k then unsent[i] else q[i - k - 1];
    }
  }

  // ----- all steps, all runs

  datatype Event =
    | EnqueueEv(data: seq<byte>, syn: bool, fin: bool, copy: bool, mss: nat, mem: bool)
    | OutputEv(wnd: nat, mss: nat, now: bool)
    | RexmitEv
    | RexmitAllEv
    | AckEv(ackno: u32)
    | SynAckEv

  /** The state and the log of everything enqueued so far. */
  datatype Conn = Conn(tx: Tx, log: seq<Unit>)

  predicate Admissible(k: Conn, e: Event, base: int, l: Limits) {
    match e
    case EnqueueEv(data, syn, fin, copy, mss, mem) => EnqueueArgs(k.tx, base, data, syn, fin, mss, l)
    case OutputEv(wnd, mss, now) => wnd <= 0xffff
    case SynAckEv => k.tx.unacked != [] && k.tx.unacked[0].syn && k.tx.lastack == k.tx.unacked[0].pos
    case _ => true
  }

  function Step(k: Conn, e: Event, base: int, l: Limits): Conn
    requires Admissible(k, e, base, l)
  {
    match e
    case EnqueueEv(data, syn, fin, copy, mss, mem) =>
      var r := Enqueue(k.tx, data, syn, fin, copy, mss, mem, l);
      if r.None? then k else Conn(r.value, k.log + UnitsOf(data, syn, fin))
    case OutputEv(wnd, mss, now) => k.(tx := Output(k.tx, wnd, mss, now))
    case RexmitEv => k.(tx := Rexmit(k.tx))
    case RexmitAllEv => k.(tx := RexmitAll(k.tx))
    case AckEv(ackno) => k.(tx := Ack(k.tx, Position(ackno, k.tx.nxt)))
    case SynAckEv => k.(tx := SynAcked(k.tx))
  }

  /** Does the step take an ACK that throws away what was never sent? */
  predicate StaleEvent(k: Conn, e: Event) {
    e.AckEv? && Stale(k.tx, Position(e.ackno, k.tx.nxt))
  }

  lemma EnqueueOk(t: Tx, data: seq<byte>, syn: bool, fin: bool, copy: bool, mss: nat, mem: bool,
                  base: int, log: seq<Unit>, l: Limits)
    requires TxOk(t, base, log, l) && EnqueueArgs(t, base, data, syn, fin, mss, l)
    ensures var r := Enqueue(t, data, syn, fin, copy, mss, mem, l);
            r.Some? ==> TxOk(r.value, base, log + UnitsOf(data, syn, fin), l)
  {
    hide Append, NewSegs, Cover, AtMostOnce, Carries, FreshTail, Sorted, Clen;
    var r := Enqueue(t, data, syn, fin, copy, mss, mem, l);
    if r.Some? {
      EnqueueAccounts(t, base, data, syn, fin, copy, mss, mem, l);
      EnqueueCovered(t, base, log, data, syn, fin, copy, mss);
      EnqueueFaithful(t, base, log, data, syn, fin, copy, mss);
      EnqueueOrdered(t, base, log, data, syn, fin, copy, mss);
    }
  }

  lemma SendHeadOk(t: Tx, base: int, log: seq<Unit>, l: Limits, wnd: nat)
    requires TxOk(t, base, log, l) && FitsWindow(t, wnd) && wnd <= 0xffff
    ensures TxOk(SendHead(t), base, log, l)
  {
    SendHeadCounts(t, l);
    SendHeadOrder(t, base, log, wnd);
  }

  /** tcp_output keeps the invariant, and stops only when nothing is left, the next segment does not fit
      the window, or one small segment is held back behind unacknowledged data. */
  lemma {:induction false} OutputOk(t: Tx, wnd: nat, mss: nat, now: bool, base: int, log: seq<Unit>, l: Limits)
    requires TxOk(t, base, log, l) && wnd <= 0xffff
    ensures TxOk(Output(t, wnd, mss, now), base, log, l)
    ensures var u := Output(t, wnd, mss, now);
            || u.unsent == []
            || !(u.lastack <= u.unsent[0].DataEnd() <= u.lastack + wnd)
            || (!now && !u.finQueued && u.unacked != [] && |u.unsent| == 1 && |u.unsent[0].data| < mss)
    decreases |t.unsent|
  {
    hide TxOk, SendHead;
    if FitsWindow(t, wnd) && MaySend(t, mss, now || t.finQueued) {
      SendHeadOk(t, base, log, l, wnd);
      SendHeadShorter(t);
      OutputOk(SendHead(t), wnd, mss, now, base, log, l);
    }
  }

  lemma SendHeadShorter(t: Tx)
    requires t.unsent != []
    ensures |SendHead(t).unsent| < |t.unsent|
  {
  }

  /** Every step keeps the invariant but such an ACK. */
  lemma StepOk(k: Conn, e: Event, base: int, l: Limits)
    requires TxOk(k.tx, base, k.log, l) && Admissible(k, e, base, l)
    ensures var k' := Step(k, e, base, l);
            (TxOk(k'.tx, base, k'.log, l) <==> !StaleEvent(k, e)) && k.log <= k'.log
  {
    match e
    case EnqueueEv(data, syn, fin, copy, mss, mem) =>
      EnqueueOk(k.tx, data, syn, fin, copy, mss, mem, base, k.log, l);
    case OutputEv(wnd, mss, now) =>
      OutputOk(k.tx, wnd, mss, now, base, k.log, l);
    case RexmitEv =>
      RexmitOk(k.tx, base, k.log, l);
    case RexmitAllEv =>
      RexmitOk(k.tx, base, k.log, l);
    case AckEv(ackno) =>
      AckAnyOk(k.tx, ackno, base, k.log, l);
    case SynAckEv =>
      SynAckedIsAck(k.tx, base, k.log, l);
  }

  /** A pcb as tcp_alloc leaves it: nothing queued, sequence space starting at `base`. */
  function Initial(base: int, l: Limits): Conn {
    Conn(Tx(base, base, base, l.sndBuf, 0, [], [], false), [])
  }

  /** A pcb as tcp_connect leaves it: the SYN queued, snd_nxt already behind it. */
  function Connecting(base: int, l: Limits): Conn {
    Conn(Tx(base, base + 1, base + 1, l.sndBuf - 1, 1, [], [TxSeg(base, [], true, false, 1)], false), [Syn])
  }

  predicate IsRun(ks: seq<Conn>, es: seq<Event>, base: int, l: Limits) {
    && |ks| == |es| + 1 && (ks[0] == Initial(base, l) || ks[0] == Connecting(base, l))
    && forall i: nat :: i < |es| ==> Follows(ks, es, base, l, i)
  }

  predicate Follows(ks: seq<Conn>, es: seq<Event>, base: int, l: Limits, i: nat)
    requires |ks| == |es| + 1 && i < |es|
  {
    Admissible(ks[i], es[i], base, l) && ks[i + 1] == Step(ks[i], es[i], base, l)
  }

  lemma ConnectingOk(base: int, l: Limits)
    requires 0 < l.sndBuf <= 0xffff && 0 < l.queueLen
    ensures TxOk(Connecting(base, l).tx, base, Connecting(base, l).log, l)
  {
    var t, s := Connecting(base, l).tx, TxSeg(base, [], true, false, 1);
    assert s.Units() == [Syn] && [s][1..] == [] && [] + [s] == [s];
    assert Clen([s]) == 1 + Clen([]);
    assert forall n :: Cover([s], n) == (if base <= n < base + 1 then 1 else 0) + Cover([], n);
  }

  /** In every state of a run coverage, contents, accounting and order hold, exactly until an ACK
      throws away what was never sent. */
  lemma {:induction false} RunOk(ks: seq<Conn>, es: seq<Event>, base: int, l: Limits, n: nat)
    requires IsRun(ks, es, base, l) && 0 < l.sndBuf <= 0xffff && 0 < l.queueLen && n < |ks|
    ensures (forall i :: 0 <= i <= n ==> TxOk(ks[i].tx, base, ks[i].log, l)) <==>
            (forall i :: 0 <= i < n ==> !StaleEvent(ks[i], es[i]))
  {
    hide TxOk, StaleEvent, Admissible;
    if n == 0 {
      ConnectingOk(base, l);
      InitialOk(base, l);
    } else {
      RunOk(ks, es, base, l, n - 1);
      assert Follows(ks, es, base, l, n - 1);
      if TxOk(ks[n - 1].tx, base, ks[n - 1].log, l) {
        StepOk(ks[n - 1], es[n - 1], base, l);
      }
    }
  }

  /** A FIN is last in the log of every run. */
  lemma {:induction false} RunFinLast(ks: seq<Conn>, es: seq<Event>, base: int, l: Limits, n: nat)
    requires IsRun(ks, es, base, l) && n < |ks|
    ensures FinLast(ks[n].log, ks[n].tx.finQueued)
  {
    if n > 0 {
      RunFinLast(ks, es, base, l, n - 1);
      assert Follows(ks, es, base, l, n - 1);
      if es[n - 1].OutputEv? {
        OutputFin(ks[n - 1].tx, es[n - 1].wnd, es[n - 1].mss, es[n - 1].now);
      }
      hide Output, Append, NewSegs, AckedRun, RequeuedRun;
    }
  }

  lemma {:induction false} OutputFin(t: Tx, wnd: nat, mss: nat, now: bool)
    ensures Output(t, wnd, mss, now).finQueued == t.finQueued
    decreases |t.unsent|
  {
    if FitsWindow(t, wnd) && MaySend(t, mss, now || t.finQueued) {
      OutputFin(SendHead(t), wnd, mss, now);
    }
  }

  lemma InitialOk(base: int, l: Limits)
    requires 0 < l.sndBuf <= 0xffff
    ensures TxOk(Initial(base, l).tx, base, Initial(base, l).log, l)
  {
  }

  /** Such an ACK in a run: one byte is enqueued and, before anything was sent, lost. */
  lemma StaleAckWitness(base: int, b: byte, l: Limits) returns (ks: seq<Conn>, es: seq<Event>)
    requires 0 < l.sndBuf <= 0xffff && 0 < l.queueLen
    ensures IsRun(ks, es, base, l) && |es| == 2 && es[1] == AckEv(Wrap(base - HALF32))
    ensures StaleEvent(ks[1], es[1])
    ensures ks[2].log == [Byte(b)] && ks[2].tx.unacked == [] && ks[2].tx.unsent == []
    ensures ks[2].tx.lastack == ks[2].tx.nxt == base && ks[2].tx.lbb == base + 1
  {
    hide TxOk, Position, Stale, Ack, Enqueue, UnitsOf, StaleEvent;
    var k0, e0, e1 := Initial(base, l), EnqueueEv([b], false, false, true, 1, true), AckEv(Wrap(base - HALF32));
    EnqueueOne(base, b, l);
    PositionUnique(base - HALF32, base);
    var k1 := Step(k0, e0, base, l);
    StaleOne(base, b, l);
    ks, es := [k0, k1, Step(k1, e1, base, l)], [e0, e1];
    forall i: nat | i < |es| ensures Follows(ks, es, base, l, i) {
      assert i == 0 || i == 1;
    }
  }

  function OneQueued(base: int, b: byte, l: Limits): Conn {
    Conn(Tx(base, base, base + 1, l.sndBuf - 1, 1, [], [TxSeg(base, [b], false, false, 1)], false), [Byte(b)])
  }

  lemma StaleOne(base: int, b: byte, l: Limits)
    requires 0 < l.sndBuf <= 0xffff && 0 < l.queueLen
    ensures var k := OneQueued(base, b, l);
            StaleEvent(k, AckEv(Wrap(base - HALF32))) && Ack(k.tx, base - HALF32) == k.tx.(unsent := [], qlen := 0)
  {
    hide TxOk, Ack, RequeuedRun, Enqueue, UnitsOf, Position;
    var k, e := OneQueued(base, b, l), EnqueueEv([b], false, false, true, 1, true);
    PositionUnique(base - HALF32, base);
    InitialOk(base, l);
    EnqueueOne(base, b, l);
    StepOk(Initial(base, l), e, base, l);
    StaleUncovered(k.tx, base - HALF32, base, k.log, l);
  }

  lemma EnqueueOne(base: int, b: byte, l: Limits)
    requires 0 < l.sndBuf <= 0xffff && 0 < l.queueLen
    ensures Admissible(Initial(base, l), EnqueueEv([b], false, false, true, 1, true), base, l)
    ensures Step(Initial(base, l), EnqueueEv([b], false, false, true, 1, true), base, l) == OneQueued(base, b, l)
  {
    var s := TxSeg(base, [b], false, false, 1);
    assert [b][..1] == [b] && [s][1..] == [];
    assert Clen([s]) == 1 + Clen([]);
    assert UnitsOf([b], false, false) == [Byte(b)];
    assert NewSegs(base, [b], false, false, true, 1) == [s];
    assert Append([], [s], 1) == [s];
    assert [] + [Byte(b)] == [Byte(b)];
    hide NewSegs, Append, UnitsOf;
  }

  /** At each unacknowledged position some queued segment carries what was enqueued there, and
      no other segment carries that position. */
  lemma CarriedOnce(t: Tx, base: int, log: seq<Unit>, l: Limits, n: int) returns (s: TxSeg, i: nat)
    requires TxOk(t, base, log, l) && t.lastack <= n < t.lbb
    ensures i < |t.unacked + t.unsent| && s == (t.unacked + t.unsent)[i] && s.pos <= n < s.End()
    ensures |s.Units()| == s.Len() && s.Units()[n - s.pos] == log[n - base]
    ensures forall j :: 0 <= j < |t.unacked + t.unsent| && j != i ==>
              !((t.unacked + t.unsent)[j].pos <= n < (t.unacked + t.unsent)[j].End())
  {
    hide Accounts, Ordered, AtMostOnce;
    var q := t.unacked + t.unsent;
    assert Cover(q, n) == 1;
    i := CoverWitness(q, n);
    s := q[i];
    assert s in t.unacked || s in t.unsent;
    assert Carries(s, base, log);
    UnitsLen(s);
    hide Carries, Faithful, Covered, Cover;
    forall j | 0 <= j < |q| && j != i ensures !(q[j].pos <= n < q[j].End()) {
      if q[j].pos <= n < q[j].End() {
        CoverTwice(q, if i < j then i else j, if i < j then j else i, n);
      }
    }
  }

  lemma {:induction false} CoverWitness(q: seq<TxSeg>, n: int) returns (i: nat)
    requires Cover(q, n) > 0
    ensures i < |q| && q[i].pos <= n < q[i].End()
  {
    if q[0].pos <= n < q[0].End() {
      i := 0;
    } else {
      i := CoverWitness(q[1..], n);
      i := i + 1;
    }
  }

  /** snd_buf is the free buffer space, except that it wraps to 65535 while a FIN is queued on
      a full buffer. */
  lemma BufExact(t: Tx, l: Limits)
    requires Accounts(t, l) && t.lastack <= t.lbb
    ensures t.buf == if t.lbb - t.lastack <= l.sndBuf then l.sndBuf - (t.lbb - t.lastack) else 0xffff
    ensures t.lbb - t.lastack > l.sndBuf ==> t.finQueued && t.lbb - t.lastack == l.sndBuf + 1
  {
  }

  /** The wrap happens: all of a full buffer was sent, and the FIN is queued behind it. */
  lemma FinOnFullBuffer(base: int, l: Limits) returns (t: Tx, log: seq<Unit>, u: Tx)
    requires 0 < l.sndBuf <= 0xffff && 1 < l.queueLen
    ensures TxOk(t, base, log, l) && t.buf == 0 && !t.finQueued
    ensures Enqueue(t, [], false, true, true, 1, true, l) == Some(u) && u.buf == 0xffff
  {
    var s := TxSeg(base, seq(l.sndBuf, i => 0), false, false, 1);
    t := Tx(base, base + l.sndBuf, base + l.sndBuf, 0, 1, [s], [], false);
    log := s.Units();
    assert [s] + [] == [s] && [s][1..] == [];
    assert forall n :: Cover([s], n) == (if base <= n < base + l.sndBuf then 1 else 0) + Cover([], n);
    assert Clen([s]) == 1 + Clen([]);
    UnitsLen(s);
    var q := NewSegs(t.lbb, [], false, true, true, 1);
    assert Clen(q) == 1;
    u := Enqueue(t, [], false, true, true, 1, true, l).value;
  }
}
