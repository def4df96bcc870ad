/**
 tcp_receive on the pcb itself: 32-bit sequence numbers, 16-bit windows, and the segment
 queue relinked in loops. Every method is proved to compute what TcpReceive specifies on
 unwrapped positions.
 */
module TcpInput {
  import opened Basics
  import opened SeqNum
  import opened TcpReorder
  import opened TcpReceive

  /** A tcp_seg: wrapped sequence number, data, FIN flag. */
  datatype TcpSeg = TcpSeg(seqno: u32, data: seq<byte>, fin: bool) {
    function TcpLen(): nat { |data| + if fin then 1 else 0 }
  }

  /** No two positions of one connection state are further apart than this. */
  const SPAN := 0x2_0000

  predicate Rep(x: TcpSeg, s: Seg) {
    x.seqno == Wrap(s.pos) && x.data == s.data && x.fin == s.fin
  }

  predicate Reps(xs: seq<TcpSeg>, q: seq<Seg>) {
    |xs| == |q| && forall i :: 0 <= i < |q| ==> Rep(xs[i], q[i])
  }

  lemma EndCompare(x: TcpSeg, s: Seg, y: TcpSeg, t: Seg)
    requires Rep(x, s) && Rep(y, t)
    ensures Wrap(x.seqno + x.TcpLen()) == Wrap(s.End())
    ensures Wrap(x.seqno + |x.data|) == Wrap(s.DataEnd())
    ensures Wrap(y.seqno + |y.data|) == Wrap(t.DataEnd())
  {
    WrapAdd(s.pos, s.Len());
    WrapAdd(s.pos, |s.data|);
    WrapAdd(t.pos, |t.data|);
  }

  lemma RepsSplit(xs: seq<TcpSeg>, q: seq<Seg>, i: nat)
    requires Reps(xs, q) && i < |q|
    ensures |xs| == |q| && Reps(xs[..i], q[..i]) && Rep(xs[i], q[i]) && Reps(xs[i..], q[i..])
  {
  }

  lemma RepsConcat(xs: seq<TcpSeg>, q: seq<Seg>, y: TcpSeg, t: Seg, zs: seq<TcpSeg>, r: seq<Seg>)
    requires Reps(xs, q) && Rep(y, t) && Reps(zs, r)
    ensures Reps(xs + [y] + zs, q + [t] + r)
  {
  }

  /** The scan both users of the queue share: free the leading segments of `next` that end
      inside `seg`, taking over a FIN. Returns the segment and how many were freed. */
  method FreeCovered(seg: TcpSeg, next: seq<TcpSeg>, finCounts: bool,
                     ghost s: Seg, ghost q: seq<Seg>, ghost hi: int)
    returns (c: TcpSeg, i: nat, ghost t: Seg)
    requires Rep(seg, s) && Reps(next, q)
    requires s.End() < hi + 1 <= s.pos + SPAN
    requires forall j :: 0 <= j < |q| ==> s.pos <= q[j].pos <= q[j].End() <= hi
    ensures i <= |next| && Rep(c, t) && t.pos == s.pos && t.data == s.data
    ensures Swallow(s, q, finCounts) == (t, q[i..])
  {
    hide Wrap, SeqGeq, Swallow;
    c, i, t := seg, 0, s;
    assert q[0..] == q;
    while i < |next| &&
          SeqGeq(Wrap(c.seqno + if finCounts then c.TcpLen() else |c.data|),
                 Wrap(next[i].seqno + |next[i].data|))
      invariant 0 <= i <= |next|
      invariant Rep(c, t) && t.pos == s.pos && t.data == s.data
      invariant Swallow(s, q, finCounts) == Swallow(t, q[i..], finCounts)
    {
      EndCompare(c, t, next[i], q[i]);
      Compare(if finCounts then t.End() else t.DataEnd(), q[i].DataEnd());
      SwallowStep(t, q, i, finCounts);
      if next[i].fin {
        c := c.(fin := true);
        t := t.(fin := true);
      }
      i := i + 1;
    }
    if i < |next| {
      EndCompare(c, t, next[i], q[i]);
      Compare(if finCounts then t.End() else t.DataEnd(), q[i].DataEnd());
    }
    SwallowStop(t, q, i, finCounts);
  }

  lemma SwallowStep(t: Seg, q: seq<Seg>, i: nat, finCounts: bool)
    requires i < |q| && (if finCounts then t.End() else t.DataEnd()) >= q[i].DataEnd()
    ensures Swallow(t, q[i..], finCounts)
         == Swallow(if q[i].fin then t.(fin := true) else t, q[i + 1..], finCounts)
  {
    assert q[i..][0] == q[i] && q[i..][1..] == q[i + 1..];
  }

  lemma SwallowStop(t: Seg, q: seq<Seg>, i: nat, finCounts: bool)
    requires i <= |q|
    requires i < |q| ==> (if finCounts then t.End() else t.DataEnd()) < q[i].DataEnd()
    ensures Swallow(t, q[i..], finCounts) == (t, q[i..])
  {
  }

  /** tcp_oos_insert_segment: link `cseg` in front of `next`, freeing what it covers. */
  method OosInsertSegment(cseg: TcpSeg, next: seq<TcpSeg>,
                          ghost s: Seg, ghost q: seq<Seg>, ghost hi: int, ghost st: Stream)
    returns (list: seq<TcpSeg>)
    requires Rep(cseg, s) && Reps(next, q)
    requires s.End() <= hi < s.pos + SPAN
    requires QueueOk(q, s.pos - 1, hi, st)
    ensures Reps(list, Merge(s, q))
  {
    if cseg.fin {
      return [cseg];
    }
    QueueOrder(q, s.pos - 1, hi, st);
    hide QueueOk, Wrap, SeqGeq, SeqGt, Swallow;
    var c, i;
    ghost var t;
    c, i, t := FreeCovered(cseg, next, false, s, q, hi);
    if i < |next| {
      assert q[i..][0] == q[i];
      c := CutTail(c, next[i].seqno, t, q[i].pos);
    }
    list := [c] + next[i..];
  }

  /** Shorten the data of `x` so that it ends before `seqno`. */
  method CutTail(x: TcpSeg, seqno: u32, ghost s: Seg, ghost pos: int) returns (y: TcpSeg)
    requires Rep(x, s) && seqno == Wrap(pos) && s.pos <= pos <= s.pos + SPAN && |s.data| <= SPAN
    ensures Rep(y, CutAt(s, pos))
  {
    hide Wrap, SeqGt;
    y := x;
    EndCompare(x, s, x, s);
    Compare(s.DataEnd(), pos);
    if SeqGt(Wrap(x.seqno + |x.data|), seqno) {
      Distance(s.pos, pos);
      y := x.(data := x.data[..Wrap(seqno - x.seqno)]);
    }
  }

  /** `inseg` starts where queue element `i` does: the one with more data stays. */
  method LinkSame(inseg: TcpSeg, ooseq: seq<TcpSeg>, i: nat,
                  ghost s: Seg, ghost q: seq<Seg>, ghost lo: int, ghost hi: int, ghost st: Stream)
    returns (queue: seq<TcpSeg>)
    requires Rep(inseg, s) && Reps(ooseq, q) && QueueOk(q, lo, hi, st)
    requires s.End() <= hi < s.pos + SPAN
    requires i < |q| && q[i].pos == s.pos && forall j :: 0 <= j < i ==> q[j].pos < s.pos
    ensures Reps(queue, Insert(q, s))
  {
    InsertSame(q, s, i);
    TailOk(q, i, s.pos - 1, lo, hi, st);
    hide Insert, Merge, QueueOk;
    queue := ooseq;
    if |inseg.data| > |ooseq[i].data| {
      var list := OosInsertSegment(inseg, ooseq[i..], s, q[i..], hi, st);
      queue := ooseq[..i] + list;
    }
  }

  /** `inseg` goes right before element `i`, shortening the element before it. */
  method LinkBefore(inseg: TcpSeg, ooseq: seq<TcpSeg>, i: nat,
                    ghost s: Seg, ghost q: seq<Seg>, ghost lo: int, ghost hi: int, ghost st: Stream)
    returns (queue: seq<TcpSeg>)
    requires Rep(inseg, s) && Reps(ooseq, q) && QueueOk(q, lo, hi, st)
    requires lo < s.pos <= s.End() <= hi < lo + SPAN
    requires i < |q| && s.pos < q[i].pos && forall j :: 0 <= j < i ==> q[j].pos < s.pos
    ensures Reps(queue, Insert(q, s))
  {
    QueueOrder(q, lo, hi, st);
    TailOk(q, i, s.pos - 1, lo, hi, st);
    RepsSplit(ooseq, q, i);
    hide Merge, QueueOk, CutFrom, CutAt, Reps;
    var list := OosInsertSegment(inseg, ooseq[i..], s, q[i..], hi, st);
    if i == 0 {
      assert q[0..] == q;
      queue := list;
    } else {
      InsertBetween(q, s, i);
      RepsSplit(ooseq, q, i - 1);
      var prev := CutTail(ooseq[i - 1], inseg.seqno, q[i - 1], s.pos);
      queue := ooseq[..i - 1] + [prev] + list;
      RepsConcat(ooseq[..i - 1], q[..i - 1], prev, CutAt(q[i - 1], s.pos), list, Merge(s, q[i..]));
    }
  }

  /** `inseg` starts above the last element. */
  method LinkLast(inseg: TcpSeg, ooseq: seq<TcpSeg>, i: nat,
                  ghost s: Seg, ghost q: seq<Seg>, ghost lo: int, ghost hi: int, ghost st: Stream)
    returns (queue: seq<TcpSeg>)
    requires Rep(inseg, s) && Reps(ooseq, q) && QueueOk(q, lo, hi, st)
    requires lo < s.pos <= s.End() <= hi < lo + SPAN
    requires |q| == i + 1 && forall j :: 0 <= j <= i ==> q[j].pos < s.pos
    ensures Reps(queue, Insert(q, s))
  {
    QueueOrder(q, lo, hi, st);
    InsertLast(q, s, i);
    hide Insert, CutAt, QueueOk, CutFrom;
    queue := ooseq;
    if !ooseq[i].fin {
      var last := CutTail(ooseq[i], inseg.seqno, q[i], s.pos);
      queue := ooseq[..i] + [last, inseg];
    }
  }

  /** Find the place of an out-of-order segment in a non-empty queue and link it in. */
  method QueueSegment(inseg: TcpSeg, ooseq: seq<TcpSeg>,
                      ghost s: Seg, ghost q: seq<Seg>, ghost lo: int, ghost hi: int, ghost st: Stream)
    returns (queue: seq<TcpSeg>)
    requires Rep(inseg, s) && Reps(ooseq, q) && q != []
    requires lo < s.pos <= s.End() <= hi < lo + SPAN
    requires QueueOk(q, lo, hi, st)
    ensures Reps(queue, Insert(q, s))
  {
    QueueOrder(q, lo, hi, st);
    hide Wrap, SeqLt, SeqGt, SeqBetween, CutFrom, Insert, QueueOk;
    var i := 0;
    while true
      invariant 0 <= i < |ooseq|
      invariant forall j :: 0 <= j < i ==> q[j].pos < s.pos
      decreases |ooseq| - i
    {
      var next := ooseq[i];
      Compare(s.pos, q[i].pos);
      if inseg.seqno == next.seqno {
        queue := LinkSame(inseg, ooseq, i, s, q, lo, hi, st);
        return;
      } else if i == 0 {
        if SeqLt(inseg.seqno, next.seqno) {
          queue := LinkBefore(inseg, ooseq, i, s, q, lo, hi, st);
          return;
        }
      } else {
        Between(s.pos, q[i - 1].pos, q[i].pos);
        if SeqBetween(inseg.seqno, Wrap(ooseq[i - 1].seqno + 1), Wrap(next.seqno - 1)) {
          queue := LinkBefore(inseg, ooseq, i, s, q, lo, hi, st);
          return;
        }
      }
      if i + 1 == |ooseq| && SeqGt(inseg.seqno, next.seqno) {
        queue := LinkLast(inseg, ooseq, i, s, q, lo, hi, st);
        return;
      }
      i := i + 1;
    }
  }

  /** A suffix of the queue is itself in order above any bound below its head. */
  lemma {:induction false} TailOk(q: seq<Seg>, i: nat, lo: int, l: int, hi: int, st: Stream)
    requires i < |q| && lo < q[i].pos && QueueOk(q, l, hi, st)
    ensures QueueOk(q[i..], lo, hi, st)
    decreases i
  {
    if i == 0 {
      assert q[0..] == q;
      QueueWeaken(q, l, lo, hi, st);
    } else {
      assert q[1..][i - 1..] == q[i..];
      TailOk(q[1..], i - 1, lo, q[0].End() - 1, hi, st);
    }
  }

  lemma Between(a: int, b: int, c: int)
    requires b <= a <= b + SPAN && b < c <= b + SPAN
    ensures SeqBetween(Wrap(a), Wrap(Wrap(b) + 1), Wrap(Wrap(c) - 1)) <==> b < a < c
  {
    WrapAdd(b, 1);
    WrapAdd(c, -1);
    Compare(a, b + 1);
    Compare(a, c - 1);
  }

  /** The part of the in-order step that frees queued segments the new one covers and
      shortens the new one where it overlaps the next; `head` is read before anything is freed. */
  method RemoveOverlap(inseg: TcpSeg, ooseq: seq<TcpSeg>,
                       ghost s: Seg, ghost q: seq<Seg>, ghost hi: int, ghost st: Stream)
    returns (c: TcpSeg, queue: seq<TcpSeg>)
    requires Rep(inseg, s) && Reps(ooseq, q) && QueueOk(q, s.pos, hi, st)
    requires s.End() <= hi < s.pos + SPAN
    ensures Rep(c, Overlap(s, q).0) && Reps(queue, Overlap(s, q).1)
  {
    c, queue := inseg, ooseq;
    if ooseq == [] {
      return;
    }
    if inseg.fin {
      while queue != [] {
        queue := queue[1..];
      }
      return;
    }
    QueueOrder(q, s.pos, hi, st);
    var head := ooseq[0].seqno;
    var i;
    ghost var t;
    c, i, t := FreeCovered(inseg, ooseq, true, s, q, hi);
    SwallowKeepsFinLast(s, q, s.pos, hi, st);
    hide Swallow, Wrap, SeqGt, CutAt, CutFrom, QueueOk;
    queue := ooseq[i..];
    if i < |ooseq| {
      assert q[i..][0] == q[i];
      EndCompare(c, t, c, t);
      Compare(t.End(), q[i].pos);
      if SeqGt(Wrap(c.seqno + c.TcpLen()), ooseq[i].seqno) {
        c := CutTail(c, head, t, q[0].pos);
      }
    }
  }

  lemma SwallowKeepsFinLast(s: Seg, q: seq<Seg>, lo: int, hi: int, st: Stream)
    requires QueueOk(q, lo, hi, st)
    ensures |Swallow(s, q, true).0.data| == |s.data|
    decreases |q|
  {
    if q != [] && s.End() >= q[0].DataEnd() {
      SwallowKeepsFinLast(if q[0].fin then s.(fin := true) else s, q[1..], q[0].End() - 1, hi, st);
    }
  }

  /** Less than 2^31 - 2^17 away from `nxt`: further away, old and new cannot be told apart. */
  predicate InReach(s: Seg, nxt: int) {
    nxt - HALF32 + SPAN <= s.pos <= nxt + HALF32 - SPAN
  }

  /** The receive half of a tcp_pcb. */
  class Pcb {
    const maxWnd: u16  // TCP_WND
    const mss: u16
    var rcvNxt: u32
    var rcvWnd: u16
    var rcvAnnWnd: u16
    var rcvAnnRightEdge: u32
    var ooseq: seq<TcpSeg>

    ghost var model: Rcv  // the same state on unwrapped positions

    ghost function Cfg(): Config { Config(maxWnd, mss) }

    /** Everything except the announced window agrees with the model. */
    ghost predicate Core()
      reads this
    {
      && rcvNxt == Wrap(model.nxt) && rcvWnd == model.wnd
      && rcvAnnRightEdge == Wrap(model.annEdge)
      && Reps(ooseq, model.ooseq)
    }

    ghost predicate Valid()
      reads this
    {
      Core() && rcvAnnWnd == model.annWnd
    }

    /** The pcb right after the handshake; the peer's data starts at position `base`. */
    constructor (wnd: u16, mss: u16, firstSeqno: u32, ghost base: int)
      requires firstSeqno == Wrap(base)
      ensures Valid() && maxWnd == wnd && this.mss == mss
      ensures model == Rcv(base, wnd, wnd, base, [])
    {
      maxWnd, this.mss := wnd, mss;
      rcvNxt, rcvWnd, rcvAnnWnd, rcvAnnRightEdge := firstSeqno, wnd, wnd, firstSeqno;
      ooseq := [];
      model := Rcv(base, wnd, wnd, base, []);
    }

    /** tcp_update_rcv_ann_wnd */
    method UpdateRcvAnnWnd()
      requires Core()
      requires model.nxt - SPAN <= model.annEdge <= model.nxt + model.wnd
      modifies this`rcvAnnWnd, this`model
      ensures Valid() && model == Announce(old(model), Cfg())
      ensures rcvAnnWnd == rcvWnd || rcvWnd - rcvAnnWnd < Min(maxWnd / 2, mss)
    {
      var newRightEdge := Wrap(rcvNxt + rcvWnd);
      var threshold := if maxWnd / 2 <= mss then maxWnd / 2 else mss;
      WrapAdd(model.nxt, model.wnd);
      WrapAdd(model.annEdge, threshold);
      Compare(model.nxt + model.wnd, model.annEdge + threshold);
      Compare(model.nxt, model.annEdge);
      hide Wrap, SeqGeq, SeqGt;
      if SeqGeq(newRightEdge, Wrap(rcvAnnRightEdge + threshold)) {
        rcvAnnWnd := rcvWnd;
      } else if SeqGt(rcvNxt, rcvAnnRightEdge) {
        rcvAnnWnd := 0;
      } else {
        Distance(model.nxt, model.annEdge);
        rcvAnnWnd := Wrap(rcvAnnRightEdge - rcvNxt);
      }
      model := Announce(model, Cfg());
    }

    /** The window fields of any outgoing segment (tcp_output_set_header, tcp_output_segment). */
    method AnnounceWindow() returns (ackno: u32, wnd: u16)
      requires Valid()
      modifies this`rcvAnnRightEdge, this`model
      ensures Valid() && model == Transmit(old(model))
      ensures ackno == Wrap(model.nxt) && wnd == model.annWnd
    {
      ackno, wnd := rcvNxt, rcvAnnWnd;
      WrapAdd(model.nxt, model.annWnd);
      rcvAnnRightEdge := Wrap(rcvNxt + rcvAnnWnd);
      model := Transmit(model);
    }

    /** tcp_recved */
    method Recved(len: u16)
      requires Valid() && len + rcvWnd <= 0xffff
      requires WindowOk(model, Cfg()) && model.nxt - SPAN <= model.annEdge
      modifies this`rcvWnd, this`rcvAnnWnd, this`model
      ensures Valid() && model == TcpReceive.Recved(old(model), len, Cfg())
    {
      rcvWnd := rcvWnd + len;
      if rcvWnd > maxWnd {
        rcvWnd := maxWnd;
      }
      model := model.(wnd := Min(model.wnd + len, maxWnd));
      UpdateRcvAnnWnd();
    }

    /** Take the head of the queue, which is in sequence. */
    method TakeHead(ghost hi: int, ghost st: Stream) returns (cseg: TcpSeg)
      requires Valid() && ooseq != [] && model.ooseq[0].pos == model.nxt
      requires QueueOk(model.ooseq, model.nxt - 1, hi, st)
      requires hi == model.nxt + model.wnd && hi - SPAN <= model.annEdge <= hi
      modifies this
      ensures Valid() && Rep(cseg, old(model).ooseq[0])
      ensures var m, s := old(model), old(model).ooseq[0];
              model == Announce(m.(nxt := s.End(), wnd := m.wnd - s.Len(), ooseq := m.ooseq[1..]), Cfg())
    {
      ghost var s := model.ooseq[0];
      cseg := ooseq[0];
      WrapAdd(model.nxt, s.Len());
      rcvNxt := Wrap(rcvNxt + cseg.TcpLen());
      rcvWnd := rcvWnd - cseg.TcpLen();
      ooseq := ooseq[1..];
      model := model.(nxt := s.End(), wnd := model.wnd - s.Len(), ooseq := model.ooseq[1..]);
      UpdateRcvAnnWnd();
    }

    /** Pass up the queued segments that are now in sequence. */
    method DrainQueue(ghost hi: int, ghost st: Stream) returns (data: seq<byte>, fin: bool)
      requires Valid() && model == Announce(model, Cfg())
      requires QueueOk(model.ooseq, model.nxt - 1, hi, st)
      requires hi == model.nxt + model.wnd && hi - SPAN <= model.annEdge <= hi
      modifies this
      ensures Valid()
      ensures var m, d := old(model), Drain(old(model).nxt, old(model).ooseq);
              && data == d.data && fin == d.fin
              && model == Announce(m.(nxt := d.nxt, wnd := m.wnd - (d.nxt - m.nxt), ooseq := d.rest), Cfg())
    {
      hide Drain, QueueOk, Announce, Wrap;
      data, fin := [], false;
      ghost var m, goal := model, Drain(model.nxt, model.ooseq);
      while ooseq != [] && ooseq[0].seqno == rcvNxt
        invariant Valid() && model == Announce(model, Cfg())
        invariant QueueOk(model.ooseq, model.nxt - 1, hi, st)
        invariant hi == model.nxt + model.wnd && hi - SPAN <= model.annEdge <= hi && model.annEdge == m.annEdge
        invariant var d := Drain(model.nxt, model.ooseq);
                  && data + d.data == goal.data && (fin || d.fin) == goal.fin
                  && d.nxt == goal.nxt && d.rest == goal.rest
        decreases |ooseq|
      {
        SameHead(model.ooseq, model.nxt, hi, st);
        DrainStep(model.nxt, model.ooseq, data, hi, st);
        ghost var h := model.ooseq[0];
        AnnounceOnce(model.(nxt := h.End(), wnd := model.wnd - h.Len(), ooseq := model.ooseq[1..]), 0, Cfg());
        var cseg := TakeHead(hi, st);
        data := data + cseg.data;
        fin := fin || cseg.fin;
      }
      SameHead(model.ooseq, model.nxt, hi, st);
      DrainStop(model.nxt, model.ooseq);
      AnnounceOnce(m.(nxt := model.nxt, wnd := model.wnd, ooseq := model.ooseq), model.annWnd, Cfg());
    }

    /** Advance over the segment that starts at rcv_nxt, clearing the queue below its end. */
    method Advance(inseg: TcpSeg, ghost s: Seg, ghost hi: int, ghost st: Stream) returns (c: TcpSeg)
      requires Valid() && Rep(inseg, s) && s.pos == model.nxt
      requires CutFrom(s, st) && s.Len() > 0 && s.End() <= hi == model.nxt + model.wnd
      requires QueueOk(model.ooseq, s.pos, hi, st)
      requires hi - SPAN <= model.annEdge <= hi
      modifies this
      ensures Valid()
      ensures var (t, rest) := Overlap(s, old(model).ooseq);
              && Rep(c, t)
              && model == Announce(old(model).(nxt := t.End(), wnd := old(model).wnd - t.Len(), ooseq := rest), Cfg())
    {
      hide Overlap, QueueOk, CutFrom, Wrap, Announce;
      ghost var q := model.ooseq;
      OverlapOk(s, q, hi, st);
      var queue;
      c, queue := RemoveOverlap(inseg, ooseq, s, q, hi, st);
      ghost var t := Overlap(s, q).0;
      EndCompare(c, t, c, t);
      rcvNxt := Wrap(c.seqno + c.TcpLen());
      rcvWnd := rcvWnd - c.TcpLen();
      ooseq := queue;
      model := model.(nxt := t.End(), wnd := model.wnd - t.Len(), ooseq := Overlap(s, q).1);
      UpdateRcvAnnWnd();
    }

    /** The segment that starts at rcv_nxt: shorten it to the window, then deliver. */
    method InOrderSegment(inseg: TcpSeg, ghost s: Seg, ghost st: Stream) returns (data: seq<byte>, fin: bool)
      requires Valid() && Rep(inseg, s) && RcvOk(model, Cfg(), st)
      requires CutFrom(s, st) && s.pos == model.nxt && s.Len() > 0 && model.wnd > 0
      requires model.nxt - 0x1_0000 <= model.annEdge
      modifies this
      ensures Valid() && Outcome(model, data, fin, false) == InOrder(old(model), s, Cfg())
    {
      ghost var r, hi := model, model.nxt + model.wnd;
      ghost var w := TrimWindow(s, r.wnd);
      TrimWindowOk(s, r.wnd, st);
      var c := inseg;
      if c.TcpLen() > rcvWnd {
        c := TcpSeg(c.seqno, c.data[..rcvWnd], false);
      }
      hide TrimWindow, QueueOk, CutFrom, InOrder, Overlap;
      data, fin := Deliver(c, w, hi, st);
      InOrderIs(r, s, model, data, fin, Cfg());
    }

    method Deliver(inseg: TcpSeg, ghost s: Seg, ghost hi: int, ghost st: Stream) returns (data: seq<byte>, fin: bool)
      requires Valid() && Rep(inseg, s) && s.pos == model.nxt
      requires CutFrom(s, st) && s.Len() > 0 && s.End() <= hi == model.nxt + model.wnd
      requires QueueOk(model.ooseq, s.pos, hi, st)
      requires hi - SPAN <= model.annEdge <= hi
      modifies this
      ensures Valid() && IsDelivered(old(model), s, model, data, fin, Cfg())
    {
      hide Core, Overlap, Drain, QueueOk, CutFrom, Announce;
      ghost var r := model;
      OverlapOk(s, r.ooseq, hi, st);
      var c := Advance(inseg, s, hi, st);
      ghost var m, t, rest := model, Overlap(s, r.ooseq).0, Overlap(s, r.ooseq).1;
      AnnounceOnce(r.(nxt := t.End(), wnd := r.wnd - t.Len(), ooseq := rest), 0, Cfg());
      data, fin := DrainQueue(hi, st);
      ghost var d := Drain(t.End(), rest);
      AnnounceOnce(r.(nxt := d.nxt, wnd := r.wnd - (d.nxt - s.pos), ooseq := d.rest), m.annWnd, Cfg());
      data, fin := c.data + data, c.fin || fin;
    }

    /** tcp_send_empty_ack, when memory for it was found. */
    method SendEmptyAck()
      requires Valid()
      modifies this`rcvAnnRightEdge, this`model
      ensures Valid() && model == Transmit(old(model))
    {
      var _, _ := AnnounceWindow();
    }

    /** Put an out-of-order segment on the queue. */
    method Enqueue(inseg: TcpSeg, ghost t: Seg, ghost hi: int, ghost st: Stream)
      requires Valid() && Rep(inseg, t) && QueueOk(model.ooseq, model.nxt, hi, st)
      requires model.nxt < t.pos <= t.End() <= hi < model.nxt + SPAN
      modifies this`ooseq, this`model
      ensures Valid() && model == old(model).(ooseq := Insert(old(model).ooseq, t))
    {
      hide Insert, QueueOk, Wrap;
      ghost var q := model.ooseq;
      InsertEmpty(t);
      if ooseq == [] {
        assert q == [];
        ooseq := [inseg];
      } else {
        ooseq := QueueSegment(inseg, ooseq, t, q, model.nxt, hi, st);
      }
      model := model.(ooseq := Insert(q, t));
    }

    /** The data part of tcp_receive, for a segment that wrapped numbers place correctly. */
    method Receive(seg: TcpSeg, acked: bool, queued: bool, ghost s: Seg, ghost st: Stream)
      returns (data: seq<byte>, fin: bool, sent: bool)
      requires Valid() && Rep(seg, s) && RcvOk(model, Cfg(), st) && Acceptable(s, model, queued, st)
      requires InReach(s, model.nxt) && |s.data| <= 0xffff
      requires model.nxt - 0x1_0000 <= model.annEdge
      modifies this
      ensures Valid()
      ensures Outcome(model, data, fin, sent) == TcpReceive.Receive(old(model), s, acked, queued, Cfg())
    {
      data, fin, sent := [], false, false;
      if seg.TcpLen() == 0 {
        return;
      }
      var inseg := TrimFrontEdge(seg, rcvNxt, s, model.nxt);
      ghost var t := TrimFront(s, model.nxt);
      TrimFrontOk(s, model.nxt, st);
      TrimFrontIs(s, model.nxt);
      hide TrimFront, InOrder, Insert, SeqBetween, Wrap, CutFrom;
      WindowBetween(t.pos, model.nxt, model.wnd);
      Compare(t.pos, model.nxt);
      if !SeqBetween(inseg.seqno, rcvNxt, Wrap(rcvNxt + rcvWnd - 1)) {
        sent := acked;
        if acked { SendEmptyAck(); }
      } else if rcvNxt == inseg.seqno {
        data, fin := InOrderSegment(inseg, t, st);
      } else {
        sent := acked;
        if acked { SendEmptyAck(); }
        if queued {
          Enqueue(inseg, t, model.nxt + model.wnd, st);
        }
      }
    }
  }

  /** `r'`, `data`, `fin` are what delivering `s`, which fits the window, makes of `r`. */
  ghost predicate IsDelivered(r: Rcv, s: Seg, r': Rcv, data: seq<byte>, fin: bool, c: Config) {
    var (t, rest) := Overlap(s, r.ooseq);
    var d := Drain(t.End(), rest);
    && r' == Announce(r.(nxt := d.nxt, wnd := r.wnd - (d.nxt - s.pos), ooseq := d.rest), c)
    && data == t.data + d.data && fin == (t.fin || d.fin)
  }

  lemma InOrderIs(r: Rcv, s: Seg, r': Rcv, data: seq<byte>, fin: bool, c: Config)
    requires r.wnd >= 0 && IsDelivered(r, TrimWindow(s, r.wnd), r', data, fin, c)
    ensures Outcome(r', data, fin, false) == InOrder(r, s, c)
  {
    hide Overlap, Drain, Announce;
  }

  lemma InsertEmpty(s: Seg)
    ensures Insert([], s) == [s]
  {
  }

  /** Drop what the segment repeats below rcv_nxt. */
  method TrimFrontEdge(seg: TcpSeg, rcvNxt: u32, ghost s: Seg, ghost nxt: int) returns (inseg: TcpSeg)
    requires Rep(seg, s) && rcvNxt == Wrap(nxt) && s.Len() > 0
    requires InReach(s, nxt) && |s.data| <= 0xffff
    ensures Rep(inseg, TrimFront(s, nxt))
  {
    WrapAdd(s.pos, 1);
    WrapAdd(s.pos, s.Len() - 1);
    Compare(nxt, s.pos + 1);
    Compare(nxt, s.End() - 1);
    hide Wrap, SeqGeq, SeqLeq;
    inseg := seg;
    if SeqBetween(rcvNxt, Wrap(seg.seqno + 1), Wrap(seg.seqno + seg.TcpLen() - 1)) {
      Distance(s.pos, nxt);
      var off := Wrap(rcvNxt - seg.seqno);
      inseg := TcpSeg(rcvNxt, seg.data[off..], seg.fin);
    }
  }

  /** The in-window test agrees with the order of positions. */
  lemma WindowBetween(a: int, nxt: int, wnd: nat)
    requires nxt - HALF32 + SPAN <= a <= nxt + HALF32 - SPAN && wnd <= 0xffff
    ensures SeqBetween(Wrap(a), Wrap(nxt), Wrap(Wrap(nxt) + wnd - 1)) <==> nxt <= a <= nxt + wnd - 1
  {
    WrapAdd(nxt, wnd - 1);
    Compare(a, nxt);
    Compare(a, nxt + wnd - 1);
  }

  lemma SameHead(q: seq<Seg>, nxt: int, hi: int, st: Stream)
    requires QueueOk(q, nxt - 1, hi, st) && hi < nxt + SPAN
    ensures q != [] ==> (Wrap(q[0].pos) == Wrap(nxt) <==> q[0].pos == nxt)
  {
    if q != [] {
      Compare(q[0].pos, nxt);
    }
  }

  /** The announced window is a function of the other fields. */
  lemma AnnounceOnce(r: Rcv, w: int, c: Config)
    ensures Announce(Announce(r, c), c) == Announce(r, c)
    ensures Announce(r.(annWnd := w), c) == Announce(r, c)
    ensures Announce(r, c).(annWnd := r.annWnd) == r
  {
  }

  lemma DrainStop(nxt: int, q: seq<Seg>)
    requires q == [] || q[0].pos != nxt
    ensures Drain(nxt, q) == Drained(nxt, [], false, q)
  {
  }

  lemma DrainStep(nxt: int, q: seq<Seg>, data: seq<byte>, hi: int, st: Stream)
    requires q != [] && q[0].pos == nxt && QueueOk(q, nxt - 1, hi, st)
    ensures QueueOk(q[1..], q[0].End() - 1, hi, st) && q[0].End() <= hi
    ensures var d, e := Drain(nxt, q), Drain(q[0].End(), q[1..]);
            && data + d.data == data + q[0].data + e.data && d.fin == (q[0].fin || e.fin)
            && d.nxt == e.nxt && d.rest == e.rest
  {
  }
}
