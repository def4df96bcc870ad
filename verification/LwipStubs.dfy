/**
 The receive half of the OCaml binding: the callback lwIP hands data to, and the read
 primitives. The OCaml runtime is not part of this model.
 */
module LwipStubs {
  import opened Basics
  import opened SeqNum
  import opened TcpReorder
  import opened TcpReceive
  import opened TcpDelivery
  import opened TcpInput

  datatype DescState = Accepted | Closing

  /** pbuf_list_length */
  method PbufListLength(pl: seq<seq<byte>>) returns (len: nat)
    ensures len == |Flat(pl)|
  {
    len := 0;
    var i := 0;
    while i < |pl|
      invariant 0 <= i <= |pl| && len == |Flat(pl[..i])|
    {
      FlatTo(pl, i);
      len := len + |pl[i]|;
      i := i + 1;
    }
    assert pl[..i] == pl;
  }

  /** The copy loop of caml_tcp_read. */
  method CopyOut(pl: seq<seq<byte>>) returns (s: seq<byte>)
    ensures s == Flat(pl)
  {
    s := [];
    var i := 0;
    while i < |pl|
      invariant 0 <= i <= |pl| && s == Flat(pl[..i])
    {
      FlatTo(pl, i);
      s := s + pl[i];
      i := i + 1;
    }
    assert pl[..i] == pl;
  }

  /** What happens to a connection: a segment comes in (was memory found for an ACK, for a copy?),
      one goes out, the application reads, the slow timer drops the out-of-order queue. */
  datatype WireEvent = SegmentIn(seg: TcpSeg, acked: bool, queued: bool) | SegmentOut | ReadCall | Timeout

  ghost predicate Means(w: WireEvent, e: Event) {
    match w
    case SegmentIn(seg, acked, queued) =>
      e.Arrive? && Rep(seg, e.s) && |e.s.data| <= 0xffff && e.acked == acked && e.queued == queued
    case SegmentOut => e.Send?
    case ReadCall => e.Read?
    case Timeout => e.Expire?
  }

  /** The peer keeps to the announced edge, and no segment is 2^31 old, in every state on the way. */
  ghost predicate PoliteRun(k: Conn, es: seq<Event>, c: Config, st: Stream)
    decreases |es|
  {
    es != [] ==>
      && k.rcv.wnd >= 0 && Polite(k, es[0], st) && (es[0].Arrive? ==> InReach(es[0].s, k.rcv.nxt))
      && PoliteRun(Step(k, es[0], c), es[1..], c, st)
  }

  ghost function Final(k: Conn, es: seq<Event>, c: Config, st: Stream): Conn
    requires PoliteRun(k, es, c, st)
    decreases |es|
  {
    if es == [] then k else Final(Step(k, es[0], c), es[1..], c, st)
  }

  /** A tcp_wrap with its descriptor. */
  class TcpWrap {
    const pcb: Pcb
    var state: DescState
    var rx: seq<seq<byte>>

    ghost var out: seq<byte>   // everything read so far
    ghost var edges: seq<int>  // right edges of all segments sent

    ghost function Model(): Conn
      reads this, pcb
    {
      Conn(pcb.model, rx, state.Closing?, out, edges)
    }

    /** A freshly accepted connection. */
    constructor (wnd: u16, mss: u16, firstSeqno: u32, ghost st: Stream)
      requires firstSeqno == Wrap(st.base)
      ensures fresh(pcb) && pcb.Valid() && pcb.Cfg() == Config(wnd, mss)
      ensures Model() == Initial(pcb.Cfg(), st)
    {
      pcb := new Pcb(wnd, mss, firstSeqno, st.base);
      state, rx, out, edges := Accepted, [], [], [];
    }

    /** tcp_recv_cb on a buffer */
    method RecvCb(p: seq<byte>)
      requires pcb.Valid() && WindowOk(pcb.model, pcb.Cfg())
      requires pcb.model.nxt - SPAN <= pcb.model.annEdge && |p| + pcb.rcvWnd <= 0xffff
      modifies this`rx, pcb
      ensures pcb.Valid() && Model() == RecvData(old(Model()), p, pcb.Cfg())
    {
      if rx == [] {
        rx := [p];
      } else if state == Accepted {
        rx := rx + [p];
      } else {
        pcb.Recved(|p|);
      }
    }

    /** tcp_recv_cb on the end of the stream */
    method RecvCbEof()
      modifies this`state
      ensures Model() == RecvEof(old(Model()))
    {
      state := Closing;
    }

    /** The part of tcp_input that processes a segment and notifies the application. */
    method Input(seg: TcpSeg, acked: bool, queued: bool, ghost s: Seg, ghost st: Stream)
      requires pcb.Valid() && Rep(seg, s) && ConnOk(Model(), pcb.Cfg(), st)
      requires Acceptable(s, pcb.model, queued, st) && InReach(s, pcb.model.nxt) && |s.data| <= 0xffff
      requires pcb.model.nxt - 0x1_0000 <= pcb.model.annEdge
      modifies this, pcb
      ensures pcb.Valid() && ConnOk(Model(), pcb.Cfg(), st)
      ensures Model() == TcpDelivery.Input(old(Model()), s, acked, queued, pcb.Cfg())
    {
      ghost var k, r := Model(), pcb.model;
      RcvBounds(r, pcb.Cfg(), st);
      InputOk(k, s, acked, queued, pcb.Cfg(), st);
      ReceiveOk(r, s, acked, queued, pcb.Cfg(), st);
      hide TcpReceive.Receive, RcvOk, QueueOk, CutFrom, Pass, Stream.Range;
      var data, fin, sent := pcb.Receive(seg, acked, queued, s, st);
      RcvBounds(pcb.model, pcb.Cfg(), st);
      Notify(data, fin, sent);
    }

    method Notify(data: seq<byte>, fin: bool, sent: bool)
      requires pcb.Valid() && WindowOk(pcb.model, pcb.Cfg())
      requires pcb.model.nxt - SPAN <= pcb.model.annEdge && |data| + pcb.rcvWnd <= 0xffff
      modifies this, pcb
      ensures pcb.Valid()
      ensures Model() == Pass(old(Model()), Outcome(old(pcb.model), data, fin, sent), pcb.Cfg())
    {
      if sent {
        edges := edges + [pcb.model.nxt + pcb.model.annWnd];
      }
      if data != [] {
        RecvCb(data);
      }
      if fin {
        RecvCbEof();
      }
    }

    /** caml_tcp_read: everything queued, credited back to the window once. */
    method Read(ghost st: Stream) returns (s: seq<byte>)
      requires pcb.Valid() && ConnOk(Model(), pcb.Cfg(), st) && pcb.model.nxt - SPAN <= pcb.model.annEdge
      modifies this, pcb
      ensures pcb.Valid() && ConnOk(Model(), pcb.Cfg(), st)
      ensures Model() == ReadAll(old(Model()), pcb.Cfg()) && s == Flat(old(rx)) && out == old(out) + s
    {
      ReadOk(Model(), pcb.Cfg(), st);
      RcvBounds(pcb.model, pcb.Cfg(), st);
      s := [];
      if rx == [] {
        return;
      }
      var total := PbufListLength(rx);
      s := CopyOut(rx);
      pcb.Recved(total);
      rx := [];
      out := out + s;
    }

    /** Any outgoing segment announces the window. */
    method SendSegment()
      requires pcb.Valid()
      modifies this`edges, pcb
      ensures pcb.Valid() && Model() == Step(old(Model()), Send, pcb.Cfg())
    {
      var _, _ := pcb.AnnounceWindow();
      edges := edges + [pcb.model.nxt + pcb.model.annWnd];
    }

    /** The slow timer gives up on the out-of-order queue. */
    method DropQueue()
      requires pcb.Valid()
      modifies pcb`ooseq, pcb`model
      ensures pcb.Valid() && Model() == Step(old(Model()), Expire, pcb.Cfg())
    {
      pcb.ooseq := [];
      pcb.model := pcb.model.(ooseq := []);
    }

    /** A whole run on the fields of the pcb: as long as the peer keeps to the announced edge it is
        the run of the specification, so that everything read is an initial part of the stream. */
    method Serve(ws: seq<WireEvent>, ghost es: seq<Event>, ghost st: Stream) returns (got: seq<byte>)
      requires pcb.Valid() && ConnOk(Model(), pcb.Cfg(), st) && EdgeOk(pcb.model, st)
      requires |ws| == |es| && forall i :: 0 <= i < |ws| ==> Means(ws[i], es[i])
      requires PoliteRun(Model(), es, pcb.Cfg(), st)
      modifies this, pcb
      ensures pcb.Valid() && ConnOk(Model(), pcb.Cfg(), st) && EdgeOk(pcb.model, st)
      ensures Model() == Final(old(Model()), es, pcb.Cfg(), st)
      ensures out == old(out) + got && out <= st.bytes
      ensures state == Closing && rx == [] ==> out == st.bytes
    {
      hide ConnOk, EdgeOk, Polite, Step, Rep, RcvOk, InReach;
      got := [];
      var i := 0;
      assert es[0..] == es;
      while i < |ws|
        invariant 0 <= i <= |ws|
        invariant pcb.Valid() && ConnOk(Model(), pcb.Cfg(), st) && EdgeOk(pcb.model, st)
        invariant PoliteRun(Model(), es[i..], pcb.Cfg(), st)
        invariant Final(Model(), es[i..], pcb.Cfg(), st) == Final(old(Model()), es, pcb.Cfg(), st)
        invariant out == old(out) + got
      {
        assert es[i..][0] == es[i] && es[i..][1..] == es[i + 1..];
        var s := Handle(ws[i], es[i], st);
        got := got + s;
        i := i + 1;
      }
      ReadPrefix(Model(), pcb.Cfg(), st);
    }

    method Handle(w: WireEvent, ghost e: Event, ghost st: Stream) returns (s: seq<byte>)
      requires pcb.Valid() && ConnOk(Model(), pcb.Cfg(), st) && EdgeOk(pcb.model, st)
      requires Means(w, e) && Polite(Model(), e, st) && (e.Arrive? ==> InReach(e.s, pcb.model.nxt))
      requires pcb.model.wnd >= 0
      modifies this, pcb
      ensures pcb.Valid() && ConnOk(Model(), pcb.Cfg(), st) && EdgeOk(pcb.model, st)
      ensures Model() == Step(old(Model()), e, pcb.Cfg()) && out == old(out) + s
    {
      EdgeStep(Model(), e, pcb.Cfg(), st);
      StepOk(Model(), e, pcb.Cfg(), st);
      hide ConnOk, Polite, Rep, RcvOk, InReach, TcpDelivery.Input, ReadAll, Acceptable, QueueOk;
      s := [];
      match w
      case SegmentIn(seg, acked, queued) => Input(seg, acked, queued, e.s, st);
      case SegmentOut => SendSegment();
      case ReadCall => s := Read(st);
      case Timeout => DropQueue();
    }

    /** caml_tcp_read_len */
    method ReadLen() returns (len: int)
      ensures len == if rx != [] then |Flat(rx)| else if state == Closing then -1 else 0
    {
      if rx != [] {
        len := PbufListLength(rx);
      } else {
        len := if state == Closing then -1 else 0;
      }
    }
  }
}
