/**
 What the receive side owes its peer: an answer to every segment it cannot take in order, the data and
 the FIN it queued, and a window that opens again, in steps worth announcing.
 */
module TcpWindow {
  import opened Basics
  import opened SeqNum
  import opened TcpReorder
  import opened TcpReceive
  import opened TcpDelivery

  // ----- answers

  /** A segment is answered at once, if memory for the ACK is found, exactly when it occupies sequence
      space and does not bring the next position expected into an open window. Other answers leave with
      the next output, a `Send`. */
  lemma ReceiveAnswers(r: Rcv, s: Seg, acked: bool, queued: bool, c: Config, st: Stream)
    requires RcvOk(r, c, st) && Acceptable(s, r, queued, st)
    ensures var o := Receive(r, s, acked, queued, c);
            && (o.sent <==> acked && s.Len() > 0 && !(s.pos <= r.nxt < s.End() && r.wnd > 0))
            && (o.sent ==> o.rcv.annEdge == o.rcv.nxt + o.rcv.annWnd && o.rcv.nxt == r.nxt)
  {
    ReceiveOk(r, s, acked, queued, c, st);
    hide Insert, QueueOk, CutFrom, Overlap, Drain;
    TrimFrontIs(s, r.nxt);
  }

  /** Everything else moves rcv_nxt, unless the window is closed or nothing new is brought. */
  lemma ReceiveAdvances(r: Rcv, s: Seg, acked: bool, queued: bool, c: Config, st: Stream)
    requires RcvOk(r, c, st) && Acceptable(s, r, queued, st)
    ensures Receive(r, s, acked, queued, c).rcv.nxt > r.nxt <==> s.pos <= r.nxt < s.End() && r.wnd > 0
  {
    hide InOrder, Insert, QueueOk, CutFrom;
    var t := TrimFront(s, r.nxt);
    TrimFrontOk(s, r.nxt, st);
    TrimFrontIs(s, r.nxt);
    if s.Len() > 0 && t.pos == r.nxt && r.wnd > 0 {
      InOrderOk(r, t, c, st);
    }
  }

  // ----- what is queued

  predicate HasFin(q: seq<Seg>) {
    exists i :: 0 <= i < |q| && q[i].fin
  }

  lemma HasFinConcat(a: seq<Seg>, b: seq<Seg>)
    ensures HasFin(a + b) <==> HasFin(a) || HasFin(b)
  {
    if HasFin(a) {
      var i :| 0 <= i < |a| && a[i].fin;
      assert (a + b)[i].fin;
    }
    if HasFin(b) {
      var i :| 0 <= i < |b| && b[i].fin;
      assert (a + b)[|a| + i].fin;
    }
  }

  lemma HasFinOne(s: Seg)
    ensures HasFin([s]) <==> s.fin
  {
    assert [s][0] == s;
  }

  lemma {:induction false} SwallowFin(s: Seg, q: seq<Seg>)
    ensures var (t, rest) := Swallow(s, q, false); (t.fin || HasFin(rest)) <==> (s.fin || HasFin(q))
    decreases |q|
  {
    if q != [] && s.DataEnd() >= q[0].DataEnd() {
      SwallowFin(if q[0].fin then s.(fin := true) else s, q[1..]);
      HasFinConcat([q[0]], q[1..]);
      HasFinOne(q[0]);
      assert q == [q[0]] + q[1..];
    }
  }

  lemma MergeFin(s: Seg, q: seq<Seg>)
    ensures HasFin(Merge(s, q)) <==> s.fin || HasFin(q)
  {
    HasFinOne(s);
    if !s.fin {
      var (t, rest) := Swallow(s, q, false);
      SwallowFin(s, q);
      var u := if rest == [] then t else CutAt(t, rest[0].pos);
      assert u.fin == t.fin;
      HasFinOne(u);
      HasFinConcat([u], rest);
    }
  }

  /** A queued FIN stays queued. One that arrives out of order is queued, too, exactly unless its data
      are already queued without it. */
  lemma {:induction false} InsertFin(q: seq<Seg>, s: Seg, lo: int, hi: int, st: Stream)
    requires QueueOk(q, lo, hi, st) && CutFrom(s, st)
    ensures HasFin(Insert(q, s)) <==> HasFin(q) || (s.fin && !Known(q, s))
    decreases |q|
  {
    hide Merge, CutFrom;
    HasFinOne(s);
    if q != [] {
      var h, rest := q[0], q[1..];
      assert q == [h] + rest;
      HasFinConcat([h], rest);
      HasFinOne(h);
      MergeFin(s, q);
      MergeFin(s, rest);
      if s.pos <= h.pos {
        KnownAbove(rest, h.End() - 1, hi, st, s);
      } else if rest == [] {
        HasFinConcat([CutAt(h, s.pos)], [s]);
        HasFinOne(CutAt(h, s.pos));
        assert [CutAt(h, s.pos)] + [s] == [CutAt(h, s.pos), s];
      } else if s.pos < rest[0].pos {
        QueueWeaken(rest, h.End() - 1, s.pos, hi, st);
        KnownAbove(rest, s.pos, hi, st, s);
        HasFinConcat([CutAt(h, s.pos)], Merge(s, rest));
        HasFinOne(CutAt(h, s.pos));
      } else {
        InsertFin(rest, s, h.End() - 1, hi, st);
        HasFinConcat([h], Insert(rest, s));
      }
    }
  }

  /** A segment above the next position expected is held in full, and its FIN remembered, when memory
      for it is found; what was queued stays so but for the tail of a segment it cuts. */
  lemma ReceiveHolds(r: Rcv, s: Seg, acked: bool, c: Config, st: Stream, n: int)
    requires RcvOk(r, c, st) && Acceptable(s, r, true, st) && s.Len() > 0 && r.nxt < s.pos < r.nxt + r.wnd
    ensures var q, q' := r.ooseq, Receive(r, s, acked, true, c).rcv.ooseq;
            && (s.pos <= n < s.DataEnd() || (Holds(q, n) && !(s.DataEnd() <= n && Straddles(q, s.pos, n))) ==> Holds(q', n))
            && (HasFin(q') <==> HasFin(q) || (s.fin && !Known(q, s)))
  {
    hide QueueOk, CutFrom, Insert, Holds, HasFin, Known, Straddles;
    TrimFrontIs(s, r.nxt);
    assert Receive(r, s, acked, true, c).rcv.ooseq == Insert(r.ooseq, s);
    InsertFin(r.ooseq, s, r.nxt, r.nxt + r.wnd, st);
    if s.pos <= n < s.DataEnd() || (Holds(r.ooseq, n) && !(s.DataEnd() <= n && Straddles(r.ooseq, s.pos, n))) {
      InsertHolds(r.ooseq, s, r.nxt, r.nxt + r.wnd, st, n);
    }
  }

  /** The case exists: the segment with the FIN repeats data already queued, and the FIN is forgotten. */
  lemma FinForgotten(r: Rcv, s: Seg, acked: bool, c: Config, st: Stream)
    requires RcvOk(r, c, st) && Acceptable(s, r, true, st) && r.nxt < s.pos < r.nxt + r.wnd
    requires s.fin && s.data != [] && r.ooseq == [s.(fin := false)]
    ensures Receive(r, s, acked, true, c).rcv.ooseq == r.ooseq
  {
    TrimFrontIs(s, r.nxt);
  }

  // ----- the window

  /** The least step by which a window is announced to grow. */
  function MinStep(c: Config): int {
    Min(c.wnd / 2, c.mss)
  }

  /** The announced window is the free one, or less than a step short of it. */
  predicate Open(r: Rcv, c: Config) {
    r.annWnd == r.wnd || r.wnd - r.annWnd < MinStep(c)
  }

  /** The edge the next segment announces: the one announced before, or a step beyond it, or, once data
      beyond that edge were accepted, rcv_nxt itself. */
  predicate Steady(r: Rcv, c: Config) {
    var edge := r.nxt + r.annWnd;
    edge == r.annEdge || edge >= r.annEdge + MinStep(c) || (r.annWnd == 0 && r.nxt > r.annEdge)
  }

  lemma AnnounceOpen(r: Rcv, c: Config)
    ensures Open(Announce(r, c), c) && Steady(Announce(r, c), c)
    ensures Announce(r, c).nxt == r.nxt && Announce(r, c).annEdge == r.annEdge && Announce(r, c).wnd == r.wnd
  {
  }

  lemma ReceiveOpen(r: Rcv, s: Seg, acked: bool, queued: bool, c: Config)
    requires r.wnd >= 0 && Open(r, c) && Steady(r, c)
    ensures Open(Receive(r, s, acked, queued, c).rcv, c) && Steady(Receive(r, s, acked, queued, c).rcv, c)
  {
    hide Announce, Overlap, Drain, Insert, TrimFront, TrimWindow;
    var t := TrimFront(s, r.nxt);
    if t.pos == r.nxt {
      var (u, rest) := Overlap(TrimWindow(t, r.wnd), r.ooseq);
      var d := Drain(u.End(), rest);
      AnnounceOpen(r.(nxt := d.nxt, wnd := r.wnd - (d.nxt - t.pos), ooseq := d.rest), c);
    }
  }

  predicate Offers(k: Conn, c: Config) {
    && Open(k.rcv, c) && Steady(k.rcv, c)
    && (k.edges != [] ==> k.edges[|k.edges| - 1] == k.rcv.annEdge)
  }

  lemma PassOffers(k: Conn, o: Outcome, c: Config)
    requires Offers(k, c) && Open(o.rcv, c) && Steady(o.rcv, c)
    requires if o.sent then o.rcv.annEdge == o.rcv.nxt + o.rcv.annWnd else o.rcv.annEdge == k.rcv.annEdge
    ensures Offers(Pass(k, o, c), c)
    ensures Pass(k, o, c).edges == if o.sent then k.edges + [o.rcv.annEdge] else k.edges
  {
    hide Announce, Open, Steady;
    var k1 := k.(rcv := o.rcv, edges := if o.sent then k.edges + [o.rcv.nxt + o.rcv.annWnd] else k.edges);
    if o.data != [] && k1.rx != [] && k1.closing {
      AnnounceOpen(k1.rcv.(wnd := Min(k1.rcv.wnd + |o.data|, c.wnd)), c);
    }
  }

  /** Every step keeps the offer open and sends at most the edge that was due. */
  lemma OffersStep(k: Conn, e: Event, c: Config, st: Stream)
    requires ConnOk(k, c, st) && Admissible(k, e, st) && Offers(k, c)
    ensures k.rcv.wnd >= 0 && Offers(Step(k, e, c), c)
    ensures Step(k, e, c).edges == k.edges || Step(k, e, c).edges == k.edges + [k.rcv.nxt + k.rcv.annWnd]
  {
    hide ConnOk, RcvOk, Receive, Pass, Announce, Flat, Open, Steady;
    WindowKept(k, c, st);
    match e
    case Arrive(s, acked, queued) =>
      ReceiveOk(k.rcv, s, acked, queued, c, st);
      ReceiveOpen(k.rcv, s, acked, queued, c);
      PassOffers(k, Receive(k.rcv, s, acked, queued, c), c);
      SentEdge(k.rcv, s, acked, queued, c);
    case Send =>
      TransmitOpen(k.rcv, c);
    case Read =>
      if k.rx != [] {
        AnnounceOpen(k.rcv.(wnd := Min(k.rcv.wnd + |Flat(k.rx)|, c.wnd)), c);
      }
    case Expire =>
      QueueOpen(k.rcv, [], c);
  }

  lemma TransmitOpen(r: Rcv, c: Config)
    requires Open(r, c)
    ensures Open(Transmit(r), c) && Steady(Transmit(r), c)
  {
  }

  lemma QueueOpen(r: Rcv, q: seq<Seg>, c: Config)
    requires Open(r, c) && Steady(r, c)
    ensures Open(r.(ooseq := q), c) && Steady(r.(ooseq := q), c)
  {
  }

  lemma SentEdge(r: Rcv, s: Seg, acked: bool, queued: bool, c: Config)
    requires r.wnd >= 0
    ensures var o := Receive(r, s, acked, queued, c); o.sent ==> o.rcv.annEdge == r.nxt + r.annWnd
  {
    hide Announce, Overlap, Drain, Insert;
  }

  /** In every state of every run the window offered is the free window, or less than a step short of
      it. So once the application has read everything, nearly all of TCP_WND is offered again. */
  lemma {:induction false} WindowReopens(ks: seq<Conn>, es: seq<Event>, c: Config, st: Stream, n: nat)
    requires IsRun(ks, es, c, st) && n < |ks|
    ensures Offers(ks[n], c)
    ensures var r := ks[n].rcv; r.annWnd == r.wnd || r.wnd - r.annWnd < Min(c.wnd / 2, c.mss)
    ensures ks[n].rx == [] && !ks[n].closing ==>
              ks[n].rcv.annWnd == c.wnd || c.wnd - ks[n].rcv.annWnd < Min(c.wnd / 2, c.mss)
  {
    RunOk(ks, es, c, st, n);
    hide Open, Steady;
    if n == 0 {
      StartOpen(c, st);
    } else {
      WindowReopens(ks, es, c, st, n - 1);
      assert Follows(ks, es, c, st, n - 1);
      RunOk(ks, es, c, st, n - 1);
      OffersStep(ks[n - 1], es[n - 1], c, st);
    }
    OpenIs(ks[n].rcv, c);
    if ks[n].rx == [] {
      assert Flat(ks[n].rx) == [];
    }
  }

  lemma StartOpen(c: Config, st: Stream)
    ensures Offers(Initial(c, st), c)
  {
  }

  lemma OpenIs(r: Rcv, c: Config)
    requires Open(r, c)
    ensures r.annWnd == r.wnd || r.wnd - r.annWnd < Min(c.wnd / 2, c.mss)
  {
  }

  /** With a peer that keeps to the announced edge the right edges put on the wire move by at least half
      the window or a full segment, whichever is less, or not at all: no silly window. */
  lemma {:induction false} EdgesStepwise(ks: seq<Conn>, es: seq<Event>, c: Config, st: Stream, n: nat)
    requires IsRun(ks, es, c, st) && n < |ks|
    requires forall i :: 0 <= i < |es| ==> Polite(ks[i], es[i], st)
    ensures var edges := ks[n].edges; forall i :: 0 <= i < |edges| - 1 ==>
              edges[i + 1] == edges[i] || edges[i + 1] - edges[i] >= Min(c.wnd / 2, c.mss)
  {
    if n > 0 {
      EdgesStepwise(ks, es, c, st, n - 1);
      assert Follows(ks, es, c, st, n - 1);
      RunOk(ks, es, c, st, n - 1);
      EdgeRun(ks, es, c, st, n - 1);
      WindowReopens(ks, es, c, st, n - 1);
      var k := ks[n - 1];
      OffersStep(k, es[n - 1], c, st);
      hide Step;
      assert k.rcv.nxt <= k.rcv.annEdge;
    }
  }

  /** In a run with any peer the edge that is due never lies less than a step beyond the last one,
      except when data beyond that were accepted and a closed window is announced. */
  lemma EdgeDue(ks: seq<Conn>, es: seq<Event>, c: Config, st: Stream, n: nat)
    requires IsRun(ks, es, c, st) && n < |ks|
    ensures var r := ks[n].rcv; var due := r.nxt + r.annWnd;
            due == r.annEdge || due - r.annEdge >= Min(c.wnd / 2, c.mss) || (r.annWnd == 0 && r.nxt > r.annEdge)
  {
    WindowReopens(ks, es, c, st, n);
  }
}
