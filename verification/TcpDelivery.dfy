/**
 A whole receiving connection: the pcb's receive variables, the receive queue the OCaml
 binding keeps for the application, and the log of window edges put on the wire.
 */
module TcpDelivery {
  import opened Basics
  import opened SeqNum
  import opened TcpReorder
  import opened TcpReceive

  /** `rx` holds the buffers queued for the application, `closing` that it was told of the FIN,
      `out` all bytes it has read, `edges` the right edges of all segments sent. */
  datatype Conn = Conn(rcv: Rcv, rx: seq<seq<byte>>, closing: bool, out: seq<byte>, edges: seq<int>)

  datatype Event =
    | Arrive(s: Seg, acked: bool, queued: bool)  // a segment arrives
    | Send                                       // any outgoing segment
    | Read                                       // the application reads
    | Expire                                     // the slow timer drops the ooseq queue

  /** tcp_recv_cb on a buffer */
  function RecvData(k: Conn, data: seq<byte>, c: Config): Conn {
    if k.rx == [] then k.(rx := [data])
    else if !k.closing then k.(rx := k.rx + [data])
    else k.(rcv := Recved(k.rcv, |data|, c))
  }

  /** tcp_recv_cb on the end of the stream */
  function RecvEof(k: Conn): Conn {
    k.(closing := true)
  }

  /** The result of a receive step goes to the application: data first, then the FIN. */
  function Pass(k: Conn, o: Outcome, c: Config): Conn {
    var k1 := k.(rcv := o.rcv, edges := if o.sent then k.edges + [o.rcv.nxt + o.rcv.annWnd] else k.edges);
    var k2 := if o.data == [] then k1 else RecvData(k1, o.data, c);
    if o.fin then RecvEof(k2) else k2
  }

  /** tcp_input: process the segment and notify the application. */
  function Input(k: Conn, s: Seg, acked: bool, queued: bool, c: Config): Conn
    requires k.rcv.wnd >= 0
  {
    Pass(k, Receive(k.rcv, s, acked, queued, c), c)
  }

  /** caml_tcp_read: copy out everything queued and credit the window. */
  function ReadAll(k: Conn, c: Config): Conn {
    if k.rx == [] then k
    else
      var bytes := Flat(k.rx);
      k.(rcv := Recved(k.rcv, |bytes|, c), rx := [], out := k.out + bytes)
  }

  function Step(k: Conn, e: Event, c: Config): Conn
    requires k.rcv.wnd >= 0
  {
    match e
    case Arrive(s, acked, queued) => Input(k, s, acked, queued, c)
    case Send => k.(rcv := Transmit(k.rcv), edges := k.edges + [k.rcv.nxt + k.rcv.annWnd])
    case Read => ReadAll(k, c)
    case Expire => k.(rcv := k.rcv.(ooseq := []))
  }

  predicate NonDecreasing(es: seq<int>, last: int)
    decreases |es|
  {
    es == [] || (es[|es| - 1] <= last && NonDecreasing(es[..|es| - 1], es[|es| - 1]))
  }

  lemma {:induction false} NonDecreasingIs(es: seq<int>, last: int)
    requires NonDecreasing(es, last)
    ensures forall i, j :: 0 <= i < j < |es| ==> es[i] <= es[j]
    ensures forall i :: 0 <= i < |es| ==> es[i] <= last
    decreases |es|
  {
    if es != [] {
      NonDecreasingIs(es[..|es| - 1], es[|es| - 1]);
    }
  }

  lemma NonDecreasingAppend(es: seq<int>, last: int, e: int)
    requires NonDecreasing(es, last) && last <= e
    ensures NonDecreasing(es + [e], e) && NonDecreasing(es, e)
  {
    assert (es + [e])[..|es|] == es;
  }

  /** The invariant of a connection receiving `st`. */
  predicate ConnOk(k: Conn, c: Config, st: Stream) {
    && RcvOk(k.rcv, c, st)
    // bytes read and bytes queued are together exactly the stream up to nxt
    && k.out + Flat(k.rx) == st.Range(st.base, Min(k.rcv.nxt, st.FinPos()))
    && (k.closing <==> k.rcv.nxt == st.FinPos() + 1)
    // every byte of the window is free, queued for the application, or the FIN
    && k.rcv.wnd + |Flat(k.rx)| + (if k.closing then 1 else 0) == c.wnd
    // announced right edges never move left
    && NonDecreasing(k.edges, k.rcv.annEdge)
  }

  /** The pcb as it leaves the handshake, with the peer's first data byte at st.base. */
  function Initial(c: Config, st: Stream): Conn {
    Conn(Rcv(st.base, c.wnd, c.wnd, st.base, []), [], false, [], [])
  }

  predicate Admissible(k: Conn, e: Event, st: Stream) {
    e.Arrive? ==> Acceptable(e.s, k.rcv, e.queued, st)
  }

  /** `ks` is a run of the connection under `es`. */
  predicate IsRun(ks: seq<Conn>, es: seq<Event>, c: Config, st: Stream) {
    && |ks| == |es| + 1
    && ks[0] == Initial(c, st)
    && forall i: nat :: i < |es| ==> Follows(ks, es, c, st, i)
  }

  predicate Follows(ks: seq<Conn>, es: seq<Event>, c: Config, st: Stream, i: nat)
    requires |ks| == |es| + 1 && i < |es|
  {
    ks[i].rcv.wnd >= 0 && Admissible(ks[i], es[i], st) && ks[i + 1] == Step(ks[i], es[i], c)
  }

  /** Data accepted by the receive callback is queued, never trashed. */
  lemma InputOk(k: Conn, s: Seg, acked: bool, queued: bool, c: Config, st: Stream)
    requires ConnOk(k, c, st) && Acceptable(s, k.rcv, queued, st)
    ensures ConnOk(Input(k, s, acked, queued, c), c, st)
  {
    RcvBounds(k.rcv, c, st);
    hide Receive, ConnOk, RcvOk, Pass, Stream.Range;
    ReceiveOk(k.rcv, s, acked, queued, c, st);
    PassOk(k, Receive(k.rcv, s, acked, queued, c), c, st);
  }

  lemma PassOk(k: Conn, o: Outcome, c: Config, st: Stream)
    requires ConnOk(k, c, st) && RcvOk(o.rcv, c, st)
    requires k.rcv.nxt <= o.rcv.nxt && k.rcv.annEdge <= o.rcv.annEdge
    requires o.rcv.nxt + o.rcv.wnd == k.rcv.nxt + k.rcv.wnd
    requires o.sent ==> o.rcv.annEdge == o.rcv.nxt + o.rcv.annWnd
    requires o.fin <==> k.rcv.nxt <= st.FinPos() < o.rcv.nxt
    requires o.data == st.Range(Min(k.rcv.nxt, st.FinPos()), Min(o.rcv.nxt, st.FinPos()))
    ensures ConnOk(Pass(k, o, c), c, st)
  {
    hide RcvOk, Stream.Range, Recved, NonDecreasing, RecvData, Flat;
    RcvBounds(k.rcv, c, st);
    RcvBounds(o.rcv, c, st);
    NonDecreasingAppend(k.edges, k.rcv.annEdge, o.rcv.annEdge);
    var a, b := Min(k.rcv.nxt, st.FinPos()), Min(o.rcv.nxt, st.FinPos());
    RangeJoin(st, st.base, a, b);
    if o.data != [] {
      var k1 := k.(rcv := o.rcv, edges := if o.sent then k.edges + [o.rcv.nxt + o.rcv.annWnd] else k.edges);
      RecvDataIs(k1, o.data, c);
      assert k.out + (Flat(k.rx) + o.data) == (k.out + Flat(k.rx)) + o.data;
    } else {
      assert st.Range(st.base, a) + o.data == st.Range(st.base, a);
    }
  }

  /** Until the end of the stream was seen, data goes behind what is queued. */
  lemma RecvDataIs(k: Conn, data: seq<byte>, c: Config)
    requires !k.closing
    ensures RecvData(k, data, c) == k.(rx := k.rx + [data]) && Flat(k.rx + [data]) == Flat(k.rx) + data
  {
    FlatAppend(k.rx, data);
  }

  lemma RcvBounds(r: Rcv, c: Config, st: Stream)
    requires RcvOk(r, c, st)
    ensures WindowOk(r, c) && st.base <= r.nxt <= st.FinPos() + 1
  {
  }

  lemma ReadOk(k: Conn, c: Config, st: Stream)
    requires ConnOk(k, c, st)
    ensures ConnOk(ReadAll(k, c), c, st) && ReadAll(k, c).rcv.annEdge == k.rcv.annEdge
  {
    hide RcvOk, Recved;
    if k.rx != [] {
      RecvedOk(k.rcv, |Flat(k.rx)|, c, st);
      assert k.out + Flat(k.rx) + Flat([]) == k.out + Flat(k.rx);
    }
  }

  lemma SendOk(k: Conn, c: Config, st: Stream)
    requires ConnOk(k, c, st)
    ensures ConnOk(Step(k, Send, c), c, st) && k.rcv.annEdge <= Transmit(k.rcv).annEdge
  {
    hide NonDecreasing, QueueOk, Stream.Range, Flat;
    NonDecreasingAppend(k.edges, k.rcv.annEdge, k.rcv.nxt + k.rcv.annWnd);
  }

  lemma ExpireOk(k: Conn, c: Config, st: Stream)
    requires ConnOk(k, c, st)
    ensures ConnOk(Step(k, Expire, c), c, st)
  {
    hide NonDecreasing, Stream.Range, Flat;
  }

  /** Passing data on does not announce anything. */
  lemma PassEdge(k: Conn, o: Outcome, c: Config)
    ensures Pass(k, o, c).rcv.annEdge == o.rcv.annEdge
  {
  }

  lemma WindowKept(k: Conn, c: Config, st: Stream)
    requires ConnOk(k, c, st)
    ensures k.rcv.wnd >= 0 && RcvOk(k.rcv, c, st)
  {
  }

  /** Every event keeps the invariant, and none moves the announced edge to the left. */
  lemma StepOk(k: Conn, e: Event, c: Config, st: Stream)
    requires ConnOk(k, c, st) && Admissible(k, e, st)
    ensures k.rcv.wnd >= 0 && ConnOk(Step(k, e, c), c, st)
    ensures k.rcv.annEdge <= Step(k, e, c).rcv.annEdge
  {
    hide ConnOk, RcvOk, Receive, Pass, ReadAll;
    WindowKept(k, c, st);
    match e
    case Arrive(s, acked, queued) =>
      InputOk(k, s, acked, queued, c, st);
      ReceiveOk(k.rcv, s, acked, queued, c, st);
      PassEdge(k, Receive(k.rcv, s, acked, queued, c), c);
    case Send => SendOk(k, c, st);
    case Read => ReadOk(k, c, st);
    case Expire => ExpireOk(k, c, st);
  }

  /** Safety of every run: the invariant holds in each state. */
  lemma {:induction false} RunOk(ks: seq<Conn>, es: seq<Event>, c: Config, st: Stream, n: nat)
    requires IsRun(ks, es, c, st) && n < |ks|
    ensures ConnOk(ks[n], c, st)
  {
    if n == 0 {
      assert st.Range(st.base, st.base) == [];
    } else {
      RunOk(ks, es, c, st, n - 1);
      assert Follows(ks, es, c, st, n - 1);
      StepOk(ks[n - 1], es[n - 1], c, st);
    }
  }

  /** What the application has read is a prefix of the peer's stream, all of it once the queue
      is empty after the FIN; the edges sent never move left and never promise more than the
      window; the out-of-order queue is sorted and disjoint above nxt, a FIN only at its end. */
  lemma RunSafe(ks: seq<Conn>, es: seq<Event>, c: Config, st: Stream, n: nat)
    requires IsRun(ks, es, c, st) && n < |ks|
    ensures ks[n].out <= st.bytes
    ensures ks[n].closing && ks[n].rx == [] ==> ks[n].out == st.bytes
    ensures forall i, j :: 0 <= i < j < |ks[n].edges| ==> ks[n].edges[i] <= ks[n].edges[j]
    ensures forall i :: 0 <= i < |ks[n].edges| ==> ks[n].edges[i] <= ks[n].rcv.nxt + ks[n].rcv.wnd
    ensures var q := ks[n].rcv.ooseq;
            && (forall i :: 0 <= i < |q| ==> ks[n].rcv.nxt < q[i].pos && (q[i].fin ==> i == |q| - 1))
            && (forall i, j :: 0 <= i < j < |q| ==> q[i].End() <= q[j].pos)
  {
    RunOk(ks, es, c, st, n);
    var k := ks[n];
    QueueOrder(k.rcv.ooseq, k.rcv.nxt, k.rcv.nxt + k.rcv.wnd, st);
    NonDecreasingIs(k.edges, k.rcv.annEdge);
    RcvBounds(k.rcv, c, st);
    ReadPrefix(k, c, st);
  }

  lemma ReadPrefix(k: Conn, c: Config, st: Stream)
    requires ConnOk(k, c, st)
    ensures k.out <= st.bytes && (k.closing && k.rx == [] ==> k.out == st.bytes)
  {
    assert k.out + Flat(k.rx) <= st.bytes;
    if k.closing && k.rx == [] {
      assert k.out + Flat([]) == k.out;
      assert st.Range(st.base, st.FinPos()) == st.bytes;
    }
  }

  // ----- a peer that keeps to the announced edge

  /** Nothing received or queued lies beyond the announced edge. */
  predicate EdgeOk(r: Rcv, st: Stream) {
    r.nxt <= r.annEdge && QueueOk(r.ooseq, r.nxt, r.annEdge, st)
  }

  /** What such a peer sends. */
  predicate Polite(k: Conn, e: Event, st: Stream) {
    e.Arrive? ==> CutFrom(e.s, st) && e.s.End() <= k.rcv.annEdge
  }

  lemma EdgeReceive(r: Rcv, s: Seg, acked: bool, queued: bool, c: Config, st: Stream)
    requires RcvOk(r, c, st) && EdgeOk(r, st) && CutFrom(s, st) && s.End() <= r.annEdge
    ensures Acceptable(s, r, queued, st) && EdgeOk(Receive(r, s, acked, queued, c).rcv, st)
  {
    hide Insert, TrimFront, QueueOk, CutFrom, Overlap, Drain;
    var t, edge := TrimFront(s, r.nxt), r.annEdge;
    TrimFrontOk(s, r.nxt, st);
    if s.Len() == 0 {
    } else if !(r.nxt <= t.pos <= r.nxt + r.wnd - 1) {
      QueueRaise(r.ooseq, r.nxt, edge, r.nxt + r.annWnd, st);
    } else if t.pos == r.nxt {
      JoinOk(t, r.ooseq, edge, st);
    } else {
      InsertOk(r.ooseq, t, r.nxt, edge, st);
      QueueRaise(r.ooseq, r.nxt, edge, r.nxt + r.annWnd, st);
      QueueRaise(Insert(r.ooseq, t), r.nxt, edge, r.nxt + r.annWnd, st);
    }
  }

  /** Giving back window and notifying the application leave queue and edge alone. */
  lemma PassRcv(k: Conn, o: Outcome, c: Config)
    ensures var r := Pass(k, o, c).rcv; r.nxt == o.rcv.nxt && r.annEdge == o.rcv.annEdge && r.ooseq == o.rcv.ooseq
  {
  }

  lemma ReadRcv(k: Conn, c: Config)
    ensures var r := ReadAll(k, c).rcv; r.nxt == k.rcv.nxt && r.annEdge == k.rcv.annEdge && r.ooseq == k.rcv.ooseq
  {
    hide Flat;
  }

  /** With such a peer each step is one the runs above admit, and nothing passes the edge. */
  lemma EdgeStep(k: Conn, e: Event, c: Config, st: Stream)
    requires ConnOk(k, c, st) && EdgeOk(k.rcv, st) && Polite(k, e, st)
    ensures Admissible(k, e, st) && k.rcv.wnd >= 0 && EdgeOk(Step(k, e, c).rcv, st)
  {
    hide ConnOk, RcvOk, QueueOk, CutFrom, Receive, Pass, ReadAll, Acceptable;
    WindowKept(k, c, st);
    RcvBounds(k.rcv, c, st);
    match e
    case Arrive(s, acked, queued) =>
      EdgeReceive(k.rcv, s, acked, queued, c, st);
      PassRcv(k, Receive(k.rcv, s, acked, queued, c), c);
    case Send =>
      QueueRaise(k.rcv.ooseq, k.rcv.nxt, k.rcv.annEdge, k.rcv.nxt + k.rcv.annWnd, st);
    case Read =>
      ReadRcv(k, c);
    case Expire =>
      EmptyQueue(k.rcv.nxt, k.rcv.annEdge, st);
  }

  lemma EmptyQueue(lo: int, hi: int, st: Stream)
    ensures QueueOk([], lo, hi, st)
  {
  }

  /** rcv_nxt and the queue stay within the announced edge over every run of such a peer. */
  lemma {:induction false} EdgeRun(ks: seq<Conn>, es: seq<Event>, c: Config, st: Stream, n: nat)
    requires IsRun(ks, es, c, st) && n < |ks|
    requires forall i :: 0 <= i < |es| ==> Polite(ks[i], es[i], st)
    ensures EdgeOk(ks[n].rcv, st)
  {
    if n > 0 {
      EdgeRun(ks, es, c, st, n - 1);
      assert Follows(ks, es, c, st, n - 1);
      RunOk(ks, es, c, st, n - 1);
      EdgeStep(ks[n - 1], es[n - 1], c, st);
    }
  }

  /** A new segment covers a queued one entirely and the next one in part. Then the code reads
      the sequence number to cut at from the queue head it has just freed. */
  predicate StaleHead(s: Seg, q: seq<Seg>) {
    && q != [] && !s.fin && q[0].DataEnd() <= s.End()
    && var rest := Swallow(s, q, true).1; rest != [] && rest[0].pos < s.End()
  }

  /** An in-order segment inside the window is taken over whole exactly when that case is avoided. */
  lemma InOrderReach(r: Rcv, s: Seg, c: Config, st: Stream)
    requires RcvOk(r, c, st) && CutFrom(s, st) && s.pos == r.nxt && 0 < s.Len() <= r.wnd
    ensures InOrder(r, s, c).rcv.nxt >= s.End() <==> !StaleHead(s, r.ooseq)
  {
    var q, hi := r.ooseq, r.nxt + r.wnd;
    assert TrimWindow(s, r.wnd) == s;
    var (t, rest) := Overlap(s, q);
    OverlapOk(s, q, hi, st);
    DrainGrows(t.End(), rest, hi, st);
    if q != [] && !s.fin {
      SwallowOk(s, q, true, s.pos, hi, st);
      var (u, _) := Swallow(s, q, true);
      if rest != [] && rest[0].pos < s.End() {
        CutKeeps(u, q[0].pos, st);
        assert t.End() == q[0].pos;
        if StaleHead(s, q) {
          SwallowBeyond(s, q, hi, st);
        } else {
          assert rest == q && Drain(t.End(), q).nxt == Drain(q[0].End(), q[1..]).nxt;
          QueueWeaken(q[1..], q[0].End() - 1, q[0].End() - 1, hi, st);
          DrainGrows(q[0].End(), q[1..], hi, st);
        }
      }
    }
  }

  lemma DrainGrows(nxt: int, q: seq<Seg>, hi: int, st: Stream)
    requires QueueOk(q, nxt - 1, hi, st)
    ensures Drain(nxt, q).nxt >= nxt
    decreases |q|
  {
    if q != [] && q[0].pos == nxt {
      DrainGrows(q[0].End(), q[1..], hi, st);
    }
  }

  /** Once a segment has been swallowed, what is left starts above the old head. */
  lemma SwallowBeyond(s: Seg, q: seq<Seg>, hi: int, st: Stream)
    requires QueueOk(q, s.pos, hi, st) && q != [] && q[0].DataEnd() <= s.End()
    ensures var rest := Swallow(s, q, true).1; rest != [] ==> rest[0].pos > q[0].pos
  {
    if |q| > 1 {
      SwallowRest(if q[0].fin then s.(fin := true) else s, q[1..], q[0].End() - 1, hi, st);
    }
  }

  /** The stale-head case happens: of five bytes that were all expected not all are taken over. */
  lemma StaleHeadWitness() returns (r: Rcv, s: Seg, c: Config, st: Stream)
    ensures RcvOk(r, c, st) && CutFrom(s, st) && s.pos == r.nxt && s.Len() == 5 <= r.wnd
    ensures StaleHead(s, r.ooseq) && InOrder(r, s, c).rcv.nxt < s.End()
  {
    hide InOrder, Swallow, QueueOk, CutFrom, StaleHead;
    c, st := Config(10, 10), Stream(0, [1, 2, 3, 4, 5, 6]);
    var a, b := Seg(2, [3], false), Seg(4, [5, 6], false);
    r, s := Rcv(0, 10, 10, 0, [a, b]), Seg(0, [1, 2, 3, 4, 5], false);
    StaleQueue(a, b, s, st);
    InOrderReach(r, s, c, st);
  }

  lemma StaleQueue(a: Seg, b: Seg, s: Seg, st: Stream)
    requires a == Seg(2, [3], false) && b == Seg(4, [5, 6], false) && s == Seg(0, [1, 2, 3, 4, 5], false)
    requires st == Stream(0, [1, 2, 3, 4, 5, 6])
    ensures QueueOk([a, b], 0, 10, st) && CutFrom(s, st) && StaleHead(s, [a, b])
  {
    assert [a, b][1..] == [b] && [b][1..] == [];
    assert QueueOk([b], 2, 10, st);
    assert Swallow(s, [b], true) == (s, [b]);
  }

  /** Without a peer that keeps inside the window the free window can become negative: an
      out-of-order segment that overruns it is queued whole. */
  lemma OverrunWitness() returns (r: Rcv, a: Seg, b: Seg, c: Config, st: Stream)
    ensures RcvOk(r, c, st) && CutFrom(a, st) && CutFrom(b, st) && b.pos == r.nxt && b.End() <= r.nxt + r.wnd
    ensures var r1 := Receive(r, a, true, true, c).rcv;
            r1.wnd >= 0 && Receive(r1, b, true, true, c).rcv.wnd < 0
  {
    c, st := Config(2, 1), Stream(0, [1, 2, 3, 4]);
    r, a, b := Rcv(0, 2, 2, 0, []), Seg(1, [2, 3, 4], false), Seg(0, [1], false);
    var r1 := Receive(r, a, true, true, c).rcv;
    assert r1.ooseq == [a];
    assert Swallow(b, [a], true) == (b, [a]);
    assert Drain(4, []) == Drained(4, [], false, []);
    assert [a][1..] == [];
    assert Drain(1, [a]).nxt == 4;
    assert Receive(r1, b, true, true, c).rcv.wnd == -2;
  }

  // ----- segments that reach beyond the window

  /** A queued segment starts where `s` does and has no less data. */
  predicate Known(q: seq<Seg>, s: Seg)
    decreases |q|
  {
    q != [] && ((q[0].pos == s.pos && |q[0].data| >= |s.data|) || Known(q[1..], s))
  }

  lemma {:induction false} KnownAbove(q: seq<Seg>, lo: int, hi: int, st: Stream, s: Seg)
    requires QueueOk(q, lo, hi, st) && s.pos <= lo
    ensures !Known(q, s)
    decreases |q|
  {
    if q != [] {
      KnownAbove(q[1..], q[0].End() - 1, hi, st, s);
    }
  }

  lemma {:induction false} SwallowAll(s: Seg, q: seq<Seg>, lo: int, hi: int, st: Stream)
    requires QueueOk(q, lo, hi, st) && hi < s.DataEnd()
    ensures Swallow(s, q, false).1 == [] && Swallow(s, q, false).0.End() > hi
    decreases |q|
  {
    if q != [] {
      SwallowAll(if q[0].fin then s.(fin := true) else s, q[1..], q[0].End() - 1, hi, st);
    }
  }

  lemma MergeOverruns(s: Seg, q: seq<Seg>, lo: int, hi: int, st: Stream)
    requires QueueOk(q, lo, hi, st) && hi < s.End()
    ensures exists x :: x in Merge(s, q) && x.End() > hi
  {
    if s.fin {
      assert s in Merge(s, q);
    } else {
      SwallowAll(s, q, lo, hi, st);
      assert Merge(s, q) == [Swallow(s, q, false).0];
    }
  }

  /** A segment that reaches beyond the others ends up in the queue that way, unless it is known. */
  lemma {:induction false} InsertOverruns(q: seq<Seg>, s: Seg, lo: int, hi: int, st: Stream)
    requires QueueOk(q, lo, hi, st) && CutFrom(s, st) && hi < s.End() && lo < s.pos
    ensures if Known(q, s) then Insert(q, s) == q else exists x :: x in Insert(q, s) && x.End() > hi
    decreases |q|
  {
    hide Merge;
    if q == [] {
      assert s in Insert(q, s);
    } else {
      var rest := q[1..];
      if s.pos <= q[0].pos {
        KnownAbove(rest, q[0].End() - 1, hi, st, s);
        MergeOverruns(s, q, lo, hi, st);
      } else if rest == [] {
        assert !q[0].fin && !Known(rest, s) && Insert(q, s) == [CutAt(q[0], s.pos), s];
        assert Insert(q, s)[1] == s;
      } else if s.pos < rest[0].pos {
        assert QueueOk(rest, s.pos, hi, st) by { QueueWeaken(rest, q[0].End() - 1, s.pos, hi, st); }
        KnownAbove(rest, s.pos, hi, st, s);
        MergeOverruns(s, rest, q[0].End() - 1, hi, st);
        var x :| x in Merge(s, rest) && x.End() > hi;
        assert x in Insert(q, s);
      } else {
        InsertOverruns(rest, s, q[0].End() - 1, hi, st);
        assert Insert(q, s) == [q[0]] + Insert(rest, s);
        assert q == [q[0]] + rest;
      }
    }
  }

  lemma {:induction false} QueueEnds(q: seq<Seg>, lo: int, hi: int, st: Stream)
    requires QueueOk(q, lo, hi, st)
    ensures forall x :: x in q ==> x.End() <= hi
    decreases |q|
  {
    if q != [] {
      QueueEnds(q[1..], q[0].End() - 1, hi, st);
      assert q == [q[0]] + q[1..];
    }
  }

  /** The receive variables stay in order exactly unless a segment that reaches beyond the window is
      queued out of order: only there is nothing cut off at the right edge. */
  lemma KeptIff(r: Rcv, s: Seg, acked: bool, queued: bool, c: Config, st: Stream)
    requires RcvOk(r, c, st) && CutFrom(s, st)
    ensures RcvOk(Receive(r, s, acked, queued, c).rcv, c, st) <==>
            !(queued && s.End() > r.nxt + r.wnd && r.nxt < s.pos < r.nxt + r.wnd && s.Len() > 0 && !Known(r.ooseq, s))
  {
    hide InOrder, Insert, TrimFront, QueueOk, CutFrom, Known;
    var t, hi := TrimFront(s, r.nxt), r.nxt + r.wnd;
    TrimFrontOk(s, r.nxt, st);
    TrimFrontIs(s, r.nxt);
    if s.Len() == 0 || !(r.nxt <= t.pos <= hi - 1) {
    } else if t.pos == r.nxt {
      InOrderOk(r, t, c, st);
    } else if s.End() <= hi {
      ReceiveOk(r, s, acked, queued, c, st);
    } else if queued {
      QueueKeptIff(r.ooseq, s, r.nxt, hi, st);
    }
  }

  lemma QueueKeptIff(q: seq<Seg>, s: Seg, lo: int, hi: int, st: Stream)
    requires QueueOk(q, lo, hi, st) && CutFrom(s, st) && hi < s.End() && lo < s.pos
    ensures QueueOk(Insert(q, s), lo, hi, st) <==> Known(q, s)
  {
    hide Insert, Known;
    InsertOverruns(q, s, lo, hi, st);
    if !Known(q, s) {
      var x :| x in Insert(q, s) && x.End() > hi;
      if QueueOk(Insert(q, s), lo, hi, st) {
        QueueEnds(Insert(q, s), lo, hi, st);
      }
    }
  }
}
