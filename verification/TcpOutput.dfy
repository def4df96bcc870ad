/**
 The send half of a tcp_pcb: 32-bit sequence numbers, 16-bit counters, and the `unsent` and
 `unacked` queues relinked in loops. Every method is proved to compute what TcpTransmit
 specifies on unwrapped positions.
 */
module TcpOutput {
  import opened Basics
  import opened SeqNum
  import opened TcpTransmit
  import opened TcpQueues
  import opened TcpSendRuns
  import opened TcpProgress

  /** A tcp_seg on a send queue; `clen` is the length of its buffer chain. */
  datatype WireSeg = WireSeg(seqno: u32, data: seq<byte>, syn: bool, fin: bool, clen: nat) {
    function TcpLen(): nat { |data| + if syn || fin then 1 else 0 }
    /** pbuf_clen counts in 8 bits. */
    function PbufClen(): nat { clen % 0x100 }
  }

  predicate Rep(x: WireSeg, s: TxSeg) {
    x.seqno == Wrap(s.pos) && x.data == s.data && x.syn == s.syn && x.fin == s.fin && x.clen == s.clen
  }

  predicate Reps(xs: seq<WireSeg>, q: seq<TxSeg>) {
    |xs| == |q| && forall i :: 0 <= i < |q| ==> Rep(xs[i], q[i])
  }

  /** All positions of a segment lie within a few windows of `mid`. */
  predicate Near(s: TxSeg, mid: int) {
    mid - 4 * SPAN <= s.pos <= s.End() <= mid + 4 * SPAN
  }

  predicate AllNear(q: seq<TxSeg>, mid: int) {
    forall i :: 0 <= i < |q| ==> Near(q[i], mid)
  }

  /** In every reachable state sequence numbers are close enough to be compared modulo 2^32. */
  lemma QueuesNear(t: Tx, base: int, log: seq<Unit>, l: Limits)
    requires TxOk(t, base, log, l)
    ensures AllNear(t.unacked, t.lastack) && AllNear(t.unsent, t.lastack)
    ensures t.lastack <= t.nxt <= t.lbb <= t.lastack + SPAN
  {
    forall i | 0 <= i < |t.unacked| ensures Near(t.unacked[i], t.lastack) {
      assert t.unacked[i] in t.unacked && Carries(t.unacked[i], base, log);
    }
    forall i | 0 <= i < |t.unsent| ensures Near(t.unsent[i], t.lastack) {
      assert t.unsent[i] in t.unsent && Carries(t.unsent[i], base, log);
    }
  }

  lemma EndIs(x: WireSeg, s: TxSeg)
    requires Rep(x, s)
    ensures Wrap(x.seqno + x.TcpLen()) == Wrap(s.End()) && x.TcpLen() == s.Len()
    ensures Wrap(x.seqno + |x.data|) == Wrap(s.DataEnd())
  {
    WrapAdd(s.pos, s.Len());
    WrapAdd(s.pos, |s.data|);
  }

  lemma HeadTail(xs: seq<WireSeg>, q: seq<TxSeg>, mid: int)
    requires Reps(xs, q) && q != [] && AllNear(q, mid)
    ensures |xs| == |q| && Rep(xs[0], q[0]) && Reps(xs[1..], q[1..]) && Near(q[0], mid)
  {
  }

  predicate AllBelow(q: seq<WireSeg>, seqno: u32) {
    forall j :: 0 <= j < |q| ==> SeqLt(q[j].seqno, seqno)
  }

  predicate PlacedAt(s: WireSeg, q: seq<WireSeg>, i: nat, r: seq<WireSeg>) {
    && i <= |q| && r == q[..i] + [s] + q[i..]
    && AllBelow(q[..i], s.seqno) && (i < |q| ==> !SeqLt(q[i].seqno, s.seqno))
  }

  /** `r` is `q` with `s` put behind exactly the segments before the first not below it. */
  ghost predicate MovedIn(s: WireSeg, q: seq<WireSeg>, r: seq<WireSeg>) {
    exists i :: PlacedAt(s, q, i, r)
  }

  /** The walk both tcp_output and tcp_rexmit do to keep a queue sorted. */
  method InsertInOrder(queue: seq<WireSeg>, seg: WireSeg, ghost q: seq<TxSeg>, ghost s: TxSeg, ghost mid: int)
    returns (r: seq<WireSeg>)
    requires Reps(queue, q) && Rep(seg, s) && AllNear(q, mid) && Near(s, mid)
    ensures Reps(r, InsertSorted(q, s)) && MovedIn(seg, queue, r)
  {
    hide Wrap, SeqLt, InsertSorted, AllNear, Near, Reps, Rep;
    var i := 0;
    assert q[0..] == q && q[..0] == [];
    RepsLen(queue, q);
    while i < |queue| && SeqLt(queue[i].seqno, seg.seqno)
      invariant 0 <= i <= |queue|
      invariant forall j :: 0 <= j < i ==> SeqLt(queue[j].seqno, seg.seqno)
      invariant InsertSorted(q, s) == q[..i] + InsertSorted(q[i..], s)
    {
      RepCompare(queue, q, i, seg, s, mid);
      InsertStep(q, s, i);
      i := i + 1;
    }
    if i < |queue| {
      RepCompare(queue, q, i, seg, s, mid);
    }
    InsertStop(q, s, i);
    r := queue[..i] + [seg] + queue[i..];
    RepsInsert(queue, q, i, seg, s);
    assert PlacedAt(seg, queue, i, r);
  }

  lemma RepsLen(queue: seq<WireSeg>, q: seq<TxSeg>)
    requires Reps(queue, q)
    ensures |queue| == |q|
  {
  }

  lemma RepCompare(queue: seq<WireSeg>, q: seq<TxSeg>, i: nat, seg: WireSeg, s: TxSeg, mid: int)
    requires Reps(queue, q) && Rep(seg, s) && AllNear(q, mid) && Near(s, mid) && i < |q|
    ensures |queue| == |q| && (SeqLt(queue[i].seqno, seg.seqno) <==> q[i].pos < s.pos)
  {
    Compare(q[i].pos, s.pos);
  }

  lemma RepsInsert(queue: seq<WireSeg>, q: seq<TxSeg>, i: nat, seg: WireSeg, s: TxSeg)
    requires Reps(queue, q) && Rep(seg, s) && i <= |q|
    ensures |queue| == |q| && Reps(queue[..i] + [seg] + queue[i..], q[..i] + [s] + q[i..])
  {
  }

  lemma InsertStep(q: seq<TxSeg>, s: TxSeg, i: nat)
    requires i < |q| && q[i].pos < s.pos
    ensures q[..i] + InsertSorted(q[i..], s) == q[..i + 1] + InsertSorted(q[i + 1..], s)
  {
    hide InsertSorted;
    InsertHead(q[i..], s);
    assert q[i..][0] == q[i] && q[i..][1..] == q[i + 1..];
    assert q[..i + 1] == q[..i] + [q[i]];
  }

  lemma InsertHead(q: seq<TxSeg>, s: TxSeg)
    requires q != [] && q[0].pos < s.pos
    ensures InsertSorted(q, s) == [q[0]] + InsertSorted(q[1..], s)
  {
  }

  lemma InsertStop(q: seq<TxSeg>, s: TxSeg, i: nat)
    requires i <= |q| && (i < |q| ==> !(q[i].pos < s.pos))
    ensures q[..i] + InsertSorted(q[i..], s) == q[..i] + [s] + q[i..]
  {
  }

  /** Appending to a sorted queue is insertion when the new segment starts above its last. */
  lemma {:induction false} InsertAtEnd(q: seq<TxSeg>, s: TxSeg)
    requires Sorted(q) && (q != [] ==> q[|q| - 1].pos < s.pos)
    ensures InsertSorted(q, s) == q + [s]
    decreases |q|
  {
    if q != [] {
      assert q[0].pos < s.pos;
      InsertAtEnd(q[1..], s);
    }
  }

  /** The loop that frees acknowledged segments from the head of `unacked`; `left` is what
      remains to be reported once each FIN freed has been taken off. */
  method CountAcked(queue: seq<WireSeg>, ackno: u32, acked: u16, ghost q: seq<TxSeg>, ghost a: int, ghost mid: int)
    returns (n: nat, clen: nat, left: u16)
    requires Reps(queue, q) && ackno == Wrap(a)
    requires AllNear(q, mid) && mid - HALF32 + 8 * SPAN < a < mid + HALF32 - 8 * SPAN && Clen(q) <= 0xff
    ensures n == AckedRun(q, a) <= |queue| && clen == Clen(q[..n]) && left == LessFins(acked, Fins(q[..n]))
  {
    hide Wrap, SeqLeq, AckedRun;
    n, clen, left := 0, 0, acked;
    assert q[0..] == q && q[..0] == [];
    while n < |queue| && SeqLeq(Wrap(queue[n].seqno + queue[n].TcpLen()), ackno)
      invariant 0 <= n <= |queue| && clen == Clen(q[..n]) && left == LessFins(acked, Fins(q[..n]))
      invariant AckedRun(q, a) == n + AckedRun(q[n..], a)
    {
      EndIs(queue[n], q[n]);
      Compare(q[n].End(), a);
      AckedStep(q, a, n);
      FreeStep(q, n);
      if left != 0 && queue[n].fin {
        left := left - 1;
      }
      clen := clen + queue[n].PbufClen();
      n := n + 1;
    }
    if n < |queue| {
      EndIs(queue[n], q[n]);
      Compare(q[n].End(), a);
    }
    AckedStop(q, a, n);
  }

  /** The same loop on `unsent`, with the test meant for requeued segments, for any number. */
  method CountRequeued(queue: seq<WireSeg>, ackno: u32, sndNxt: u32, acked: u16,
                       ghost q: seq<TxSeg>, ghost a: int, ghost nxt: int)
    returns (n: nat, clen: nat, left: u16)
    requires Reps(queue, q) && ackno == Wrap(a) && sndNxt == Wrap(nxt) && Clen(q) <= 0xff
    ensures n == RequeuedRun(q, a, nxt) <= |queue| && clen == Clen(q[..n]) && left == LessFins(acked, Fins(q[..n]))
  {
    hide Wrap, SeqBetween, RequeuedRun;
    n, clen, left := 0, 0, acked;
    assert q[0..] == q && q[..0] == [];
    while n < |queue| && SeqBetween(ackno, Wrap(queue[n].seqno + queue[n].TcpLen()), sndNxt)
      invariant 0 <= n <= |queue| && clen == Clen(q[..n]) && left == LessFins(acked, Fins(q[..n]))
      invariant RequeuedRun(q, a, nxt) == n + RequeuedRun(q[n..], a, nxt)
    {
      EndIs(queue[n], q[n]);
      RequeuedStep(q, a, nxt, n);
      FreeStep(q, n);
      if left != 0 && queue[n].fin {
        left := left - 1;
      }
      clen := clen + queue[n].PbufClen();
      n := n + 1;
    }
    if n < |queue| {
      EndIs(queue[n], q[n]);
    }
    RequeuedStop(q, a, nxt, n);
  }

  lemma {:induction false} ClenOne(q: seq<TxSeg>, n: nat)
    requires n < |q|
    ensures q[n].clen <= Clen(q)
  {
    if n > 0 {
      ClenOne(q[1..], n - 1);
    }
  }

  lemma AckedStep(q: seq<TxSeg>, a: int, n: nat)
    requires n < |q| && q[n].End() <= a
    ensures AckedRun(q[n..], a) == 1 + AckedRun(q[n + 1..], a)
  {
    assert q[n..][0] == q[n] && q[n..][1..] == q[n + 1..];
  }

  lemma RequeuedStep(q: seq<TxSeg>, a: int, nxt: int, n: nat)
    requires n < |q| && SeqBetween(Wrap(a), Wrap(q[n].End()), Wrap(nxt))
    ensures RequeuedRun(q[n..], a, nxt) == 1 + RequeuedRun(q[n + 1..], a, nxt)
  {
    hide Wrap, SeqBetween;
    assert q[n..][0] == q[n] && q[n..][1..] == q[n + 1..];
  }

  lemma RequeuedStop(q: seq<TxSeg>, a: int, nxt: int, n: nat)
    requires n <= |q| && (n < |q| ==> !SeqBetween(Wrap(a), Wrap(q[n].End()), Wrap(nxt)))
    ensures RequeuedRun(q[n..], a, nxt) == 0
  {
    hide Wrap, SeqBetween;
  }

  /** One more segment freed. */
  lemma FreeStep(q: seq<TxSeg>, n: nat)
    requires n < |q|
    ensures Clen(q[..n + 1]) == Clen(q[..n]) + q[n].clen && q[n].clen <= Clen(q)
    ensures Fins(q[..n + 1]) == Fins(q[..n]) + if q[n].fin then 1 else 0
  {
    assert q[..n + 1] == q[..n] + [q[n]];
    ClenConcat(q[..n], [q[n]]);
    FinsConcat(q[..n], [q[n]]);
    ClenOne(q, n);
  }

  lemma AckedStop(q: seq<TxSeg>, a: int, n: nat)
    requires n <= |q| && (n < |q| ==> q[n].End() > a)
    ensures AckedRun(q[n..], a) == 0
  {
  }

  /** The send half of a tcp_pcb. */
  class Pcb {
    const limits: Limits  // TCP_SND_BUF and TCP_SND_QUEUELEN
    var lastack: u32
    var sndNxt: u32
    var sndLbb: u32
    var sndBuf: u16
    var sndQueuelen: u16
    var unacked: seq<WireSeg>
    var unsent: seq<WireSeg>
    var finQueued: bool  // TF_FIN

    ghost var model: Tx
    ghost var base: int
    ghost var log: seq<Unit>  // everything enqueued so far

    /** The fields represent the model. */
    ghost predicate Linked()
      reads this
    {
      && lastack == Wrap(model.lastack) && sndNxt == Wrap(model.nxt) && sndLbb == Wrap(model.lbb)
      && sndBuf == model.buf && sndQueuelen == model.qlen && finQueued == model.finQueued
      && Reps(unacked, model.unacked) && Reps(unsent, model.unsent)
    }

    ghost predicate Valid()
      reads this
    {
      Linked() && TxOk(model, base, log, limits) && limits.queueLen <= 0xff
    }

    /** The send fields tcp_alloc sets. */
    constructor (l: Limits, iss: u32)
      requires 0 < l.sndBuf <= 0xffff && 0 < l.queueLen <= 0xff
      ensures Valid() && limits == l && Conn(model, log) == Initial(iss, l) && base == iss
    {
      limits := l;
      lastack, sndNxt, sndLbb := iss, iss, iss;
      sndBuf, sndQueuelen := l.sndBuf, 0;
      unacked, unsent, finQueued := [], [], false;
      base, log := iss, [];
      model := Tx(iss, iss, iss, l.sndBuf, 0, [], [], false);
    }

    /** tcp_rexmit */
    method RexmitFirst()
      requires Valid()
      modifies this`unacked, this`unsent, this`model
      ensures Valid() && model == Rexmit(old(model))
      ensures old(unacked) == [] ==> unacked == [] && unsent == old(unsent)
      ensures old(unacked) != [] ==> unacked == old(unacked)[1..] && MovedIn(old(unacked)[0], old(unsent), unsent)
    {
      hide TxOk, Wrap, SeqLt, MovedIn;
      if unacked == [] {
        return;
      }
      assert model.unacked != [];
      hide InsertSorted, Reps, Rep, AllNear, Near;
      QueuesNear(model, base, log, limits);
      RexmitOk(model, base, log, limits);
      HeadTail(unacked, model.unacked, model.lastack);
      var seg := unacked[0];
      var queue := InsertInOrder(unsent, seg, model.unsent, model.unacked[0], model.lastack);
      unacked := unacked[1..];
      unsent := queue;
      model := Rexmit(model);
    }

    /** tcp_rexmit_rto, up to its call of tcp_output */
    method RequeueAll()
      requires Valid()
      modifies this`unacked, this`unsent, this`model
      ensures Valid() && model == RexmitAll(old(model))
      ensures unacked == [] && unsent == old(unacked) + old(unsent)
    {
      hide TxOk, Wrap;
      RexmitOk(model, base, log, limits);
      assert unacked == [] ==> unacked + unsent == unsent;
      if unacked == [] {
        return;
      }
      unsent := unacked + unsent;
      unacked := [];
      model := RexmitAll(model);
    }

    /** An ACK of new data; `acked` is the 16-bit difference less the FIN segments freed. */
    method AckNewData(ackno: u32, ghost a: int) returns (acked: u16)
      requires Valid() && ackno == Wrap(a) && model.lastack < a <= model.nxt
      modifies this`lastack, this`sndBuf, this`sndQueuelen, this`unacked, this`model
      ensures Valid() && model == AckData(old(model), a)
      ensures acked == LessFins((a - old(model).lastack) % 0x1_0000, Fins(FreedUnacked(old(model), a)))
    {
      hide TxOk, Wrap, AckedRun, Reps, Rep, AllNear, Clen, Fins, Near;
      QueuesNear(model, base, log, limits);
      QueueLens(model, base, log, limits);
      AckDataOk(model, a, base, log, limits);
      QueueLens(AckData(model, a), base, log, limits);
      Distance(model.lastack, a);
      acked := Wrap(ackno - lastack) % 0x1_0000;
      AddMod16(sndBuf, a - model.lastack);
      sndBuf := (sndBuf + acked) % 0x1_0000;
      lastack := ackno;
      var n, clen, left := CountAcked(unacked, ackno, acked, model.unacked, a, model.lastack);
      acked := left;
      RepsDrop(unacked, model.unacked, n);
      unacked := unacked[n..];
      sndQueuelen := sndQueuelen - clen;
      model := AckData(model, a);
    }

    /** The loop over `unsent`, for any number. */
    method AckRequeuedData(ackno: u32, acked: u16, ghost a: int) returns (left: u16)
      requires Valid() && ackno == Wrap(a)
      modifies this`sndQueuelen, this`unsent, this`model
      ensures Linked() && model == AckRequeued(old(model), a)
      ensures left == LessFins(acked, Fins(FreedUnsent(old(model), a)))
    {
      hide TxOk, Wrap, RequeuedRun, Reps, AllNear;
      QueueLens(model, base, log, limits);
      RequeuedLens(model, a, base, log, limits);
      var m, clen;
      m, clen, left := CountRequeued(unsent, ackno, sndNxt, acked, model.unsent, a, model.nxt);
      RepsDrop(unsent, model.unsent, m);
      unsent := unsent[m..];
      sndQueuelen := sndQueuelen - clen;
      model := AckRequeued(model, a);
    }

    /** The ACK processing of tcp_receive, for every acknowledgement number. `acked` is pcb->acked. */
    method AckSegments(ackno: u32) returns (acked: u16)
      requires Valid()
      modifies this
      ensures Linked() && base == old(base) && log == old(log)
      ensures var t, a := old(model), Position(ackno, old(model.nxt));
              model == Ack(t, a) && (Valid() <==> !Stale(t, a)) && acked == Reported(t, a)
    {
      hide TxOk, AckData, AckRequeued, Wrap, SeqLeq, SeqBetween, Position, Stale;
      ghost var a := Position(ackno, model.nxt);
      ghost var t := model;
      AckAnyOk(model, ackno, base, log, limits);
      QueuesNear(model, base, log, limits);
      ClassifyAck(a, model.lastack, model.nxt);
      SameUnsent(model, a);
      hide Reps, AllNear;
      acked := 0;
      if SeqLeq(ackno, lastack) {
        AckNothing(model, a);
      } else if SeqBetween(ackno, Wrap(lastack + 1), sndNxt) {
        acked := AckNewData(ackno, a);
      } else {
        AckNothing(model, a);
      }
      acked := AckRequeuedData(ackno, acked, a);
    }

    /** The SYN|ACK of an active open. */
    method AcceptSynAck(ackno: u32)
      requires Valid() && unacked != [] && unacked[0].syn && lastack == unacked[0].seqno
      requires ackno == Wrap(unacked[0].seqno + 1)
      modifies this
      ensures Valid() && base == old(base) && log == old(log) && model == SynAcked(old(model))
    {
      hide TxOk, Wrap;
      HeadSyn(model, base, log, limits);
      SynAckedIsAck(model, base, log, limits);
      QueueLens(SynAcked(model), base, log, limits);
      WrapAdd(model.unacked[0].pos, 1);
      sndBuf := (sndBuf + 1) % 0x1_0000;
      lastack := ackno;
      sndQueuelen := sndQueuelen - 1;
      unacked := unacked[1..];
      model := SynAcked(model);
    }

    /** Move the first unsent segment to the unacknowledged queue. */
    method SendFirst(ghost wnd: nat)
      requires Valid() && FitsWindow(model, wnd) && wnd <= 0xffff
      modifies this`sndNxt, this`unacked, this`unsent, this`model
      ensures Valid() && model == SendHead(old(model)) && |unsent| == |old(unsent)| - 1
    {
      hide TxOk, Wrap, SeqLt, InsertSorted;
      QueuesNear(model, base, log, limits);
      SendHeadOk(model, base, log, limits, wnd);
      SentHead(model, base, log, limits);
      HeadTail(unsent, model.unsent, model.lastack);
      var seg := unsent[0];
      ghost var s := model.unsent[0];
      hide Reps, AllNear, Rep;
      EndIs(seg, s);
      Compare(model.nxt, s.End());
      var next := Wrap(seg.seqno + seg.TcpLen());
      unsent := unsent[1..];
      if SeqLt(sndNxt, next) {
        sndNxt := next;
      }
      if seg.TcpLen() > 0 {
        unacked := PutUnacked(unacked, seg, model.unacked, s, model.lastack);
      }
      model := SendHead(model);
    }

    /** tcp_output. `wnd` is the smaller of send and congestion window; `quick` says that the
        Nagle delay is off or fast recovery is on, `retry` that an earlier enqueue failed. */
    method Output(wnd: u16, mss: u16, quick: bool, retry: bool)
      requires Valid()
      modifies this`sndNxt, this`unacked, this`unsent, this`model
      ensures Valid() && model == TcpTransmit.Output(old(model), wnd, mss, quick || retry)
      ensures || model.unsent == []
              || !(model.lastack <= model.unsent[0].DataEnd() <= model.lastack + wnd)
              || (!quick && !retry && !finQueued && unacked != [] && |unsent| == 1 && |unsent[0].data| < mss)
    {
      hide TxOk, Wrap, SendHead, TcpTransmit.Output, Rep, AckedRun;
      OutputStops(model, wnd, mss, quick || retry, base, log, limits);
      ghost var goal := TcpTransmit.Output(model, wnd, mss, quick || retry);
      while unsent != [] && Wrap(unsent[0].seqno - lastack + |unsent[0].data|) <= wnd
        invariant Valid() && TcpTransmit.Output(model, wnd, mss, quick || retry) == goal
        decreases |unsent|
      {
        HeadFits(model, unsent, lastack, wnd);
        OutputStep(model, wnd, mss, quick || retry);
        if !(unacked == [] || quick || |unsent| > 1 || |unsent[0].data| >= mss) && !(retry || finQueued) {
          return;
        }
        SendFirst(wnd);
      }
      HeadFits(model, unsent, lastack, wnd);
      OutputStep(model, wnd, mss, quick || retry);
    }

    /** tcp_enqueue, with memory for `segs` segments. A failing call changes nothing. */
    method Enqueue(data: seq<byte>, syn: bool, fin: bool, copy: bool, mss: u16, segs: nat) returns (ok: bool)
      requires Valid() && EnqueueArgs(model, base, data, syn, fin, mss, limits)
      modifies this
      ensures Valid() && base == old(base)
      ensures var r := TcpTransmit.Enqueue(old(model), data, syn, fin, copy, mss,
                         |NewSegs(old(model).lbb, data, syn, fin, copy, mss)| <= segs, limits);
              ok == r.Some? && (if ok then model == r.value && log == old(log) + UnitsOf(data, syn, fin)
                                else model == old(model) && log == old(log))
    {
      hide TxOk, Wrap, NewSegs, TcpTransmit.Append, UnitsOf, Reps, Clen;
      QueueLens(model, base, log, limits);
      ok := false;
      if data == [] && !syn && !fin {
        return;
      }
      if |data| > sndBuf {
        return;
      }
      if sndQueuelen >= limits.queueLen {
        return;
      }
      ghost var q := NewSegs(model.lbb, data, syn, fin, copy, mss);
      var built, queue, clen := BuildQueue(sndLbb, data, syn, fin, copy, mss, segs, limits.queueLen - sndQueuelen, model.lbb);
      if !built {
        return;
      }
      NewHead(model.lbb, data, syn, fin, copy, mss);
      var list, freed := AppendQueue(unsent, queue, copy, mss, model, q, base, log, limits);
      EnqueueOk(model, data, syn, fin, copy, mss, |q| <= segs, base, log, limits);
      ghost var more := UnitsOf(data, syn, fin);
      Commit(list, |data| + if syn || fin then 1 else 0, clen as int - freed, fin,
             TcpTransmit.Enqueue(model, data, syn, fin, copy, mss, |q| <= segs, limits).value, more);
      ok := true;
    }

    /** The counter updates at the end of tcp_enqueue. */
    method Commit(list: seq<WireSeg>, len: nat, added: int, fin: bool, ghost t: Tx, ghost more: seq<Unit>)
      requires Valid() && TxOk(t, base, log + more, limits) && Reps(list, t.unsent)
      requires t == model.(unsent := t.unsent, lbb := model.lbb + len, buf := (model.buf - len) % 0x1_0000,
                           qlen := model.qlen + added, finQueued := model.finQueued || fin)
      modifies this
      ensures Valid() && base == old(base) && model == t && log == old(log) + more
    {
      hide TxOk, Wrap, Reps;
      QueueLens(t, base, log + more, limits);
      WrapAdd(model.lbb, len);
      unsent := list;
      sndLbb := Wrap(sndLbb + len);
      sndBuf := (sndBuf - len) % 0x1_0000;
      sndQueuelen := sndQueuelen + added;
      finQueued := finQueued || fin;
      model, log := t, log + more;
    }
  }

  /** The first loop of tcp_enqueue: break the data into segments while memory and queue space last. */
  method BuildQueue(lbb: u32, data: seq<byte>, syn: bool, fin: bool, copy: bool, mss: u16, segs: nat, room: nat, ghost pos: int)
    returns (ok: bool, queue: seq<WireSeg>, clen: nat)
    requires mss > 0 && lbb == Wrap(pos) && |data| <= 0xffff
    ensures var q := NewSegs(pos, data, syn, fin, copy, mss);
            ok == (|q| <= segs && Clen(q) <= room) && (ok ==> Reps(queue, q) && clen == Clen(q))
  {
    hide Wrap, NewSegs, Clen, Reps, Rep;
    ghost var q := NewSegs(pos, data, syn, fin, copy, mss);
    ok, queue, clen := false, [], 0;
    var i := 0;
    ClenNone();
    assert data[0..] == data && q[0..] == q && q[..0] == [];
    assert Reps([], []) by { RepsNone(); }
    while queue == [] || i < |data|
      invariant 0 <= i <= |data| && |queue| <= |q| && |queue| <= segs
      invariant Reps(queue, q[..|queue|]) && clen == Clen(q[..|queue|]) <= room
      invariant if queue == [] then i == 0
                else if i == |data| then |queue| == |q| else true
      invariant queue == [] || i < |data| ==> q[|queue|..] == NewSegs(pos + i, data[i..], syn, fin, copy, mss)
      decreases queue == [], |data| - i
    {
      var n := if |data| - i > mss then mss as int else |data| - i;
      ClenSplit(q, |queue|);
      NextSeg(q, |queue|, pos, i, data, syn, fin, copy, mss);
      if |queue| == segs {
        return;
      }
      WrapAdd(pos, i);
      var seg := WireSeg(Wrap(lbb + i), data[i..i + n], syn, fin, if copy || n == 0 then 1 else 2);
      clen := clen + seg.clen;
      if clen > room {
        return;
      }
      RepsSnoc(queue, q, seg);
      queue := queue + [seg];
      i := i + n;
    }
    assert q[..|queue|] == q;
    ok := true;
  }

  lemma RepsNone()
    ensures Reps([], [])
  {
  }

  lemma RepsSnoc(queue: seq<WireSeg>, q: seq<TxSeg>, seg: WireSeg)
    requires |queue| < |q| && Reps(queue, q[..|queue|])
    requires seg == WireSeg(Wrap(q[|queue|].pos), q[|queue|].data, q[|queue|].syn, q[|queue|].fin, q[|queue|].clen)
    ensures Reps(queue + [seg], q[..|queue| + 1])
  {
    hide Wrap;
  }

  /** The segment that comes next, after `k` segments with `i` bytes. */
  lemma NextSeg(q: seq<TxSeg>, k: nat, pos: int, i: nat, data: seq<byte>, syn: bool, fin: bool, copy: bool, mss: nat)
    requires mss > 0 && k < |q| && i <= |data| && q[k..] == NewSegs(pos + i, data[i..], syn, fin, copy, mss)
    ensures var n := if |data| - i > mss then mss else |data| - i;
            && q[k] == TxSeg(pos + i, data[i..i + n], syn, fin, if copy || n == 0 then 1 else 2)
            && q[k + 1..] == if i + n == |data| then [] else NewSegs(pos + (i + n), data[i + n..], syn, fin, copy, mss)
  {
    hide NewSegs;
    var n := if |data| - i > mss then mss else |data| - i;
    NewSegsStep(pos + i, data[i..], syn, fin, copy, mss);
    assert data[i..][..n] == data[i..i + n] && data[i..][n..] == data[i + n..];
    assert q[k] == q[k..][0] && q[k..][1..] == q[k + 1..];
    assert pos + i + n == pos + (i + n);
  }

  lemma NewSegsStep(pos: int, data: seq<byte>, syn: bool, fin: bool, copy: bool, mss: nat)
    requires mss > 0
    ensures var q, n := NewSegs(pos, data, syn, fin, copy, mss), if |data| > mss then mss else |data|;
            && q[0] == TxSeg(pos, data[..n], syn, fin, if copy || n == 0 then 1 else 2)
            && q[1..] == if n == |data| then [] else NewSegs(pos + n, data[n..], syn, fin, copy, mss)
  {
  }

  lemma ClenNone()
    ensures Clen([]) == 0
  {
  }

  lemma ClenSplit(q: seq<TxSeg>, k: nat)
    requires k < |q|
    ensures Clen(q[..k + 1]) == Clen(q[..k]) + q[k].clen <= Clen(q)
  {
    hide Clen;
    assert q[..k + 1] == q[..k] + [q[k]] && q == q[..k + 1] + q[k + 1..];
    ClenConcat(q[..k], [q[k]]);
    ClenConcat(q[..k + 1], q[k + 1..]);
    ClenSingle(q[k]);
  }

  lemma ClenSingle(s: TxSeg)
    ensures Clen([s]) == s.clen
  {
    assert [s][1..] == [];
  }

  /** The second half of tcp_enqueue: link the new segments to the unsent queue, merging the
      first one into its last when both fit one segment. `freed` counts header buffers dropped. */
  method AppendQueue(unsent: seq<WireSeg>, queue: seq<WireSeg>, copy: bool, mss: u16,
                     ghost t: Tx, ghost q: seq<TxSeg>, ghost base: int, ghost log: seq<Unit>, ghost l: Limits)
    returns (list: seq<WireSeg>, freed: nat)
    requires Reps(unsent, t.unsent) && Reps(queue, q) && q != [] && TxOk(t, base, log, l)
    requires q[0].pos == t.lbb && q[0].clen == if copy || q[0].data == [] then 1 else 2
    requires q[0].Len() > 0 && (q[0].fin ==> q[0].data == [] && |q| == 1)
    ensures Reps(list, Append(t.unsent, q, mss))
    ensures Clen(Append(t.unsent, q, mss)) == Clen(t.unsent) + Clen(q) - freed
  {
    hide TxOk, Wrap, Append, Joinable, Join, Clen;
    list, freed := unsent + queue, 0;
    AppendPlain(t.unsent, q, mss);
    if unsent != [] {
      var last := |unsent| - 1;
      var u, s := unsent[last], queue[0];
      LastNear(t, base, log, l);
      EndIs(u, t.unsent[last]);
      Compare(t.unsent[last].DataEnd(), q[0].pos);
      JoinableIs(t.unsent[last], q[0], mss);
      if u.TcpLen() != 0 && !u.syn && !u.fin && !s.syn && |u.data| + |s.data| <= mss
         && Wrap(u.seqno + |u.data|) == s.seqno {
        AppendJoined(t.unsent, q, mss, copy);
        AppendClen(t.unsent, q, mss, copy);
        freed := if !copy || s.data == [] then 1 else 0;
        if s.fin {
          list := unsent[..last] + [u.(fin := true)];
        } else {
          list := unsent[..last] + [u.(data := u.data + s.data, clen := u.clen + 1)] + queue[1..];
        }
      }
    }
  }

  lemma LastNear(t: Tx, base: int, log: seq<Unit>, l: Limits)
    requires TxOk(t, base, log, l) && t.unsent != []
    ensures Near(t.unsent[|t.unsent| - 1], t.lastack) && t.lastack <= t.lbb <= t.lastack + SPAN
  {
    QueuesNear(t, base, log, l);
  }

  lemma JoinableIs(u: TxSeg, s: TxSeg, mss: nat)
    ensures Joinable(u, s, mss) <==>
            u.Len() != 0 && !u.syn && !u.fin && !s.syn && |u.data| + |s.data| <= mss && u.DataEnd() == s.pos
  {
  }

  lemma AppendPlain(unsent: seq<TxSeg>, q: seq<TxSeg>, mss: nat)
    requires q != []
    ensures unsent == [] || !Joinable(unsent[|unsent| - 1], q[0], mss) ==>
              Append(unsent, q, mss) == unsent + q && Clen(unsent + q) == Clen(unsent) + Clen(q)
  {
    ClenConcat(unsent, q);
  }

  lemma AppendJoined(unsent: seq<TxSeg>, q: seq<TxSeg>, mss: nat, copy: bool)
    requires unsent != [] && q != [] && Joinable(unsent[|unsent| - 1], q[0], mss)
    requires q[0].clen == if copy || q[0].data == [] then 1 else 2
    requires q[0].Len() > 0 && (q[0].fin ==> q[0].data == [] && |q| == 1)
    ensures var u := unsent[|unsent| - 1];
            Append(unsent, q, mss) == unsent[..|unsent| - 1]
              + (if q[0].fin then [u.(fin := true)] else [u.(data := u.data + q[0].data, clen := u.clen + 1)] + q[1..])
    ensures q[0].data == [] ==> q[0].fin
  {
  }

  lemma AppendClen(unsent: seq<TxSeg>, q: seq<TxSeg>, mss: nat, copy: bool)
    requires unsent != [] && q != [] && Joinable(unsent[|unsent| - 1], q[0], mss)
    requires q[0].clen == if copy || q[0].data == [] then 1 else 2
    requires q[0].Len() > 0 && (q[0].fin ==> q[0].data == [] && |q| == 1)
    ensures Clen(Append(unsent, q, mss)) == Clen(unsent) + Clen(q) - (if !copy || q[0].data == [] then 1 else 0)
  {
    var k := |unsent| - 1;
    var u, j, r := unsent[k], Join(unsent[k], q[0]), if q[0].fin then [] else q[1..];
    assert Append(unsent, q, mss) == unsent[..k] + [j] + r;
    assert j.clen == u.clen + if q[0].fin then 0 else 1;
    assert q[0].data == [] <==> q[0].fin;
    hide Clen, Append, Join, Joinable;
    assert q[0].fin ==> q[1..] == [];
    ClenOf(unsent[..k], u, []);
    ClenOf(unsent[..k], j, r);
    ClenOf([], q[0], q[1..]);
    ClenNone();
    assert unsent[..k] + [u] + [] == unsent && [] + [q[0]] + q[1..] == q;
  }

  lemma ClenOf(a: seq<TxSeg>, s: TxSeg, b: seq<TxSeg>)
    ensures Clen(a + [s] + b) == Clen(a) + s.clen + Clen(b)
  {
    ClenConcat(a, [s]);
    ClenConcat(a + [s], b);
    assert Clen([s]) == s.clen + Clen([]);
  }

  lemma OutputStep(t: Tx, wnd: nat, mss: nat, now: bool)
    ensures TcpTransmit.Output(t, wnd, mss, now) ==
            if FitsWindow(t, wnd) && MaySend(t, mss, now || t.finQueued)
            then TcpTransmit.Output(SendHead(t), wnd, mss, now) else t
  {
  }

  lemma HeadFits(t: Tx, unsent: seq<WireSeg>, lastack: u32, wnd: u16)
    requires Reps(unsent, t.unsent) && lastack == Wrap(t.lastack)
    ensures |unsent| == |t.unsent| && (unsent != [] ==> |unsent[0].data| == |t.unsent[0].data|)
    ensures FitsWindow(t, wnd) <==> unsent != [] && Wrap(unsent[0].seqno - lastack + |unsent[0].data|) <= wnd
  {
    if unsent != [] {
      WindowOffset(t.unsent[0].pos, t.lastack, |unsent[0].data|);
    }
  }

  lemma WindowOffset(p: int, lastack: int, n: int)
    ensures Wrap(Wrap(p) - Wrap(lastack) + n) == Wrap(p + n - lastack)
  {
    assert p == p / MOD32 * MOD32 + Wrap(p) && lastack == lastack / MOD32 * MOD32 + Wrap(lastack);
    ModShift(Wrap(p) - Wrap(lastack) + n, p / MOD32 - lastack / MOD32);
  }

  /** What the queue invariants say about the segment being sent. */
  lemma SentHead(t: Tx, base: int, log: seq<Unit>, l: Limits)
    requires TxOk(t, base, log, l) && t.unsent != []
    ensures t.unsent[0].Len() > 0 && Sorted(t.unacked)
    ensures forall i :: 0 <= i < |t.unacked| ==> t.unacked[i].pos != t.unsent[0].pos
  {
    assert t.unsent[0] in t.unsent && Carries(t.unsent[0], base, log);
    forall i | 0 <= i < |t.unacked| ensures t.unacked[i].pos != t.unsent[0].pos {
      assert t.unacked[i] in t.unacked && Carries(t.unacked[i], base, log);
      Disjoint(t, base, log, t.unacked[i], t.unsent[0]);
    }
  }

  /** Put a sent segment on the unacknowledged queue: at its tail, or in order before it. */
  method PutUnacked(unacked: seq<WireSeg>, seg: WireSeg, ghost q: seq<TxSeg>, ghost s: TxSeg, ghost mid: int)
    returns (r: seq<WireSeg>)
    requires Reps(unacked, q) && Rep(seg, s) && AllNear(q, mid) && Near(s, mid)
    requires Sorted(q) && s.Len() > 0
    requires forall i :: 0 <= i < |q| ==> q[i].pos != s.pos
    ensures Reps(r, InsertSorted(q, s))
  {
    r := unacked;
    if unacked == [] {
      r := [seg];
    } else {
      var last := |unacked| - 1;
      Compare(s.pos, q[last].pos);
      if SeqLt(seg.seqno, unacked[last].seqno) {
        r := InsertInOrder(unacked, seg, q, s, mid);
      } else {
        InsertAtEnd(q, s);
        r := unacked + [seg];
      }
    }
  }

  lemma AddMod16(x: u16, d: nat)
    ensures (x + d % 0x1_0000) % 0x1_0000 == (x + d) % 0x1_0000
  {
  }

  lemma RepsDrop(xs: seq<WireSeg>, q: seq<TxSeg>, n: nat)
    requires Reps(xs, q) && n <= |q|
    ensures |xs| == |q| && Reps(xs[n..], q[n..])
  {
  }

  lemma QueueLens(t: Tx, base: int, log: seq<Unit>, l: Limits)
    requires TxOk(t, base, log, l)
    ensures t.qlen == Clen(t.unacked) + Clen(t.unsent) && 0 <= t.qlen <= l.queueLen && 0 <= t.buf <= 0xffff
  {
  }

  lemma RequeuedLens(t: Tx, a: int, base: int, log: seq<Unit>, l: Limits)
    requires TxOk(t, base, log, l)
    ensures 0 <= AckRequeued(t, a).qlen <= l.queueLen
  {
    RequeuedCounts(t, a, l);
  }

  lemma SameUnsent(t: Tx, a: int)
    ensures FreedUnsent(AckData(t, a), a) == FreedUnsent(t, a)
  {
    AckedNow(t, a);
  }

  /** The two tests on the ACK order its position correctly, wherever it lies. */
  lemma ClassifyAck(a: int, lastack: int, nxt: int)
    requires lastack <= nxt <= lastack + SPAN && nxt - HALF32 <= a < nxt + HALF32
    ensures SeqLeq(Wrap(a), Wrap(lastack)) ==> !(lastack < a <= nxt)
    ensures !SeqLeq(Wrap(a), Wrap(lastack)) ==>
              (SeqBetween(Wrap(a), Wrap(Wrap(lastack) + 1), Wrap(nxt)) <==> lastack < a <= nxt)
  {
    WrapAdd(lastack, 1);
    Compare(a, nxt);
    if a - lastack >= HALF32 {
      ModShift(a, -1);
      Compare(a - MOD32, lastack);
    } else {
      Compare(a, lastack);
      if a > lastack {
        Compare(a, lastack + 1);
      }
    }
  }

  lemma AckNothing(t: Tx, a: int)
    requires !(t.lastack < a <= t.nxt)
    ensures AckData(t, a) == t
  {
  }

  /** The head of `unacked` is near lastack, so equal numbers mean equal positions. */
  lemma HeadSyn(t: Tx, base: int, log: seq<Unit>, l: Limits)
    requires TxOk(t, base, log, l) && t.unacked != [] && Wrap(t.lastack) == Wrap(t.unacked[0].pos)
    ensures t.lastack == t.unacked[0].pos
  {
    QueuesNear(t, base, log, l);
    Compare(t.lastack, t.unacked[0].pos);
  }
}
