/**
 The receive step of a TCP connection (data part of tcp_receive), the announced window and
 the receive queue of the OCaml binding, as a state machine on unwrapped positions, with
 what every run of it keeps.
 */
module TcpReceive {
  import opened Basics
  import opened SeqNum
  import opened TcpReorder

  /** TCP_WND, and the segment size the window-update threshold depends on. */
  datatype Config = Config(wnd: nat, mss: nat)

  /** Receive variables of a pcb: rcv_nxt, rcv_wnd, rcv_ann_wnd, rcv_ann_right_edge, ooseq. */
  datatype Rcv = Rcv(nxt: int, wnd: int, annWnd: int, annEdge: int, ooseq: seq<Seg>)

  /** Result of a receive step: data and FIN passed up, and whether an ACK left at once. */
  datatype Outcome = Outcome(rcv: Rcv, data: seq<byte>, fin: bool, sent: bool)

  function Min(a: int, b: int): int {
    if a <= b then a else b
  }

  /** tcp_update_rcv_ann_wnd */
  function Announce(r: Rcv, c: Config): Rcv {
    if r.nxt + r.wnd >= r.annEdge + Min(c.wnd / 2, c.mss) then r.(annWnd := r.wnd)
    else if r.nxt > r.annEdge then r.(annWnd := 0)
    else r.(annWnd := r.annEdge - r.nxt)
  }

  /** An outgoing segment announces the window: the right edge becomes nxt + annWnd. */
  function Transmit(r: Rcv): Rcv {
    r.(annEdge := r.nxt + r.annWnd)
  }

  /** tcp_recved */
  function Recved(r: Rcv, len: nat, c: Config): Rcv {
    Announce(r.(wnd := Min(r.wnd + len, c.wnd)), c)
  }

  /** Drop what lies below `nxt` if `s` reaches beyond it. */
  function TrimFront(s: Seg, nxt: int): Seg {
    if s.pos + 1 <= nxt <= s.End() - 1 then Seg(nxt, s.data[nxt - s.pos..], s.fin) else s
  }

  /** Drop what does not fit in the window. */
  function TrimWindow(s: Seg, wnd: nat): Seg {
    if s.Len() > wnd then s.(data := s.data[..wnd], fin := false) else s
  }

  /** The segment starts at nxt: deliver it and whatever it makes contiguous. */
  function InOrder(r: Rcv, s: Seg, c: Config): Outcome
    requires r.wnd >= 0
  {
    var (t, rest) := Overlap(TrimWindow(s, r.wnd), r.ooseq);
    var d := Drain(t.End(), rest);
    var r' := r.(nxt := d.nxt, wnd := r.wnd - (d.nxt - s.pos), ooseq := d.rest);
    Outcome(Announce(r', c), t.data + d.data, t.fin || d.fin, false)
  }

  /** tcp_receive on segment `s`; `acked` says whether memory for an immediate ACK was found,
      `queued` whether memory for a copy of an out-of-order segment was found. */
  function Receive(r: Rcv, s: Seg, acked: bool, queued: bool, c: Config): Outcome
    requires r.wnd >= 0
  {
    var t := TrimFront(s, r.nxt);
    if s.Len() == 0 then Outcome(r, [], false, false)
    else if !(r.nxt <= t.pos <= r.nxt + r.wnd - 1) then
      Outcome(if acked then Transmit(r) else r, [], false, acked)
    else if t.pos == r.nxt then InOrder(r, t, c)
    else
      var r1 := if acked then Transmit(r) else r;
      Outcome(if queued then r1.(ooseq := Insert(r1.ooseq, t)) else r1, [], false, acked)
  }

  // ----- the receive variables over all runs

  /** Announced space lies inside the window and reaches at least the edge already announced. */
  predicate WindowOk(r: Rcv, c: Config) {
    && 0 <= r.wnd <= c.wnd
    && r.annEdge <= r.nxt + r.annWnd
    && 0 <= r.annWnd <= r.wnd
  }

  predicate RcvOk(r: Rcv, c: Config, st: Stream) {
    && WindowOk(r, c)
    && st.base <= r.nxt <= st.FinPos() + 1
    && QueueOk(r.ooseq, r.nxt, r.nxt + r.wnd, st)
  }

  /** A segment of the stream. One that is queued out of order ends inside the window; any other may
      overrun it. */
  predicate Acceptable(s: Seg, r: Rcv, queued: bool, st: Stream) {
    CutFrom(s, st) && (queued && r.nxt < s.pos < r.nxt + r.wnd ==> s.End() <= r.nxt + r.wnd)
  }

  lemma AnnounceOk(r: Rcv, c: Config)
    requires 0 <= r.wnd <= c.wnd && r.annEdge <= r.nxt + r.wnd
    ensures WindowOk(Announce(r, c), c)
    ensures Announce(r, c).annWnd == r.wnd || r.wnd - Announce(r, c).annWnd < Min(c.wnd / 2, c.mss)
  {
  }

  lemma TrimFrontOk(s: Seg, nxt: int, st: Stream)
    requires CutFrom(s, st)
    ensures CutFrom(TrimFront(s, nxt), st) && TrimFront(s, nxt).End() == s.End()
    ensures s.pos <= nxt < s.End() ==> TrimFront(s, nxt).pos == nxt
    ensures s.Len() > 0 && TrimFront(s, nxt).pos >= nxt ==> TrimFront(s, nxt).Len() > 0
  {
    if s.pos + 1 <= nxt <= s.End() - 1 {
      RangeCut(st, s.pos, s.DataEnd(), nxt);
    }
  }

  lemma TrimWindowOk(s: Seg, wnd: nat, st: Stream)
    requires CutFrom(s, st)
    ensures CutFrom(TrimWindow(s, wnd), st) && TrimWindow(s, wnd).pos == s.pos
    ensures TrimWindow(s, wnd).Len() == Min(s.Len(), wnd)
  {
    if s.Len() > wnd {
      RangeCut(st, s.pos, s.DataEnd(), s.pos + wnd);
    }
  }

  /** Delivery in order: exactly the stream between the old and the new nxt, and a FIN exactly
      when nxt passes the end of the stream. */
  lemma InOrderOk(r: Rcv, s: Seg, c: Config, st: Stream)
    requires RcvOk(r, c, st) && CutFrom(s, st) && s.pos == r.nxt && s.Len() > 0 && r.wnd > 0
    ensures var o := InOrder(r, s, c);
            && RcvOk(o.rcv, c, st) && r.nxt < o.rcv.nxt && !o.sent
            && o.rcv.nxt + o.rcv.wnd == r.nxt + r.wnd && o.rcv.annEdge == r.annEdge
            && o.fin == (o.rcv.nxt == st.FinPos() + 1)
            && o.data == st.Range(r.nxt, Min(o.rcv.nxt, st.FinPos()))
  {
    hide Overlap, Drain, TrimWindow;
    TrimWindowOk(s, r.wnd, st);
    var w := TrimWindow(s, r.wnd);
    JoinOk(w, r.ooseq, r.nxt + r.wnd, st);
    var (t, rest) := Overlap(w, r.ooseq);
    var d := Drain(t.End(), rest);
    var r' := r.(nxt := d.nxt, wnd := r.wnd - (d.nxt - s.pos), ooseq := d.rest);
    assert InOrder(r, s, c) == Outcome(Announce(r', c), t.data + d.data, t.fin || d.fin, false);
    AnnounceOk(r', c);
  }

  /** Overlap removal followed by draining delivers one contiguous piece of the stream. */
  lemma JoinOk(s: Seg, q: seq<Seg>, hi: int, st: Stream)
    requires CutFrom(s, st) && s.Len() > 0 && s.End() <= hi
    requires QueueOk(q, s.pos, hi, st)
    ensures var (t, rest) := Overlap(s, q);
            var d := Drain(t.End(), rest);
            && s.pos < d.nxt <= hi && d.nxt <= st.FinPos() + 1 && QueueOk(d.rest, d.nxt, hi, st)
            && (t.fin || d.fin) == (d.nxt == st.FinPos() + 1)
            && t.data + d.data == st.Range(s.pos, Min(d.nxt, st.FinPos()))
  {
    hide Overlap;
    OverlapOk(s, q, hi, st);
    var (t, rest) := Overlap(s, q);
    FollowOk(t, rest, hi, st);
  }

  lemma FollowOk(t: Seg, rest: seq<Seg>, hi: int, st: Stream)
    requires CutFrom(t, st) && 0 < t.Len() && t.End() <= hi
    requires QueueOk(rest, t.End() - 1, hi, st) && (t.fin ==> rest == [])
    ensures var d := Drain(t.End(), rest);
            && t.End() <= d.nxt <= hi && d.nxt <= st.FinPos() + 1 && QueueOk(d.rest, d.nxt, hi, st)
            && (t.fin || d.fin) == (d.nxt == st.FinPos() + 1)
            && t.data + d.data == st.Range(t.pos, Min(d.nxt, st.FinPos()))
  {
    if !t.fin {
      hide Drain, QueueOk;
      DrainOk(t.End(), rest, hi, st);
      var d := Drain(t.End(), rest);
      RangeJoin(st, t.pos, t.End(), Min(d.nxt, st.FinPos()));
    }
  }

  /** What one arriving segment keeps and delivers. */
  lemma ReceiveOk(r: Rcv, s: Seg, acked: bool, queued: bool, c: Config, st: Stream)
    requires RcvOk(r, c, st) && Acceptable(s, r, queued, st)
    ensures var o := Receive(r, s, acked, queued, c);
            && RcvOk(o.rcv, c, st) && r.nxt <= o.rcv.nxt && r.annEdge <= o.rcv.annEdge
            && o.rcv.nxt + o.rcv.wnd == r.nxt + r.wnd
            && (if o.sent then o.rcv.annEdge == o.rcv.nxt + o.rcv.annWnd else o.rcv.annEdge == r.annEdge)
            && (o.fin <==> r.nxt <= st.FinPos() < o.rcv.nxt)
            && o.data == st.Range(Min(r.nxt, st.FinPos()), Min(o.rcv.nxt, st.FinPos()))
  {
    hide InOrder, Insert, TrimFront;
    var t := TrimFront(s, r.nxt);
    TrimFrontOk(s, r.nxt, st);
    if s.Len() == 0 || !(r.nxt <= t.pos <= r.nxt + r.wnd - 1) {
    } else if t.pos == r.nxt {
      InOrderOk(r, t, c, st);
    } else {
      TrimFrontIs(s, r.nxt);
      if queued {
        InsertOk(r.ooseq, t, r.nxt, r.nxt + r.wnd, st);
      }
    }
  }

  lemma TrimFrontIs(s: Seg, nxt: int)
    ensures s.pos > nxt ==> TrimFront(s, nxt) == s
    ensures s.pos <= nxt && s.Len() > 0 ==> TrimFront(s, nxt).pos <= nxt
  {
  }

  lemma {:induction false} QueueRaise(q: seq<Seg>, lo: int, hi: int, hi': int, st: Stream)
    requires QueueOk(q, lo, hi, st) && hi <= hi'
    ensures QueueOk(q, lo, hi', st)
    decreases |q|
  {
    if q != [] {
      QueueRaise(q[1..], q[0].End() - 1, hi, hi', st);
    }
  }

  /** Reading gives window back without disturbing the queue or the announced edge. */
  lemma RecvedOk(r: Rcv, len: nat, c: Config, st: Stream)
    requires RcvOk(r, c, st)
    ensures var r' := Recved(r, len, c);
            && RcvOk(r', c, st) && r'.nxt == r.nxt && r'.annEdge == r.annEdge
            && r'.wnd == Min(r.wnd + len, c.wnd)
  {
    var w := Min(r.wnd + len, c.wnd);
    AnnounceOk(r.(wnd := w), c);
    QueueRaise(r.ooseq, r.nxt, r.nxt + r.wnd, r.nxt + w, st);
  }
}
