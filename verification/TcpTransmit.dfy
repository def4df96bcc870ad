/**
 The send side of a TCP connection on unwrapped positions: the `unsent` and `unacked` queues,
 buffer accounting, retransmission and acknowledgement.
 */
module TcpTransmit {
  import opened Basics
  import opened SeqNum

  /** One position of sequence space. */
  datatype Unit = Syn | Byte(b: byte) | Fin

  /** A queued segment; `clen` counts the buffers of its chain. */
  datatype TxSeg = TxSeg(pos: int, data: seq<byte>, syn: bool, fin: bool, clen: nat) {
    function DataEnd(): int { pos + |data| }
    function Len(): nat { |data| + if syn || fin then 1 else 0 }
    function End(): int { pos + Len() }
    function Units(): seq<Unit> {
      (if syn then [Syn] else []) + seq(|data|, i requires 0 <= i < |data| => Byte(data[i])) + (if fin then [Fin] else [])
    }
  }

  /** Send variables of a pcb: lastack, snd_nxt, snd_lbb, snd_buf, snd_queuelen, both queues,
      and whether the FIN has been queued. */
  datatype Tx = Tx(lastack: int, nxt: int, lbb: int, buf: int, qlen: int,
                   unacked: seq<TxSeg>, unsent: seq<TxSeg>, finQueued: bool)

  /** TCP_SND_BUF and TCP_SND_QUEUELEN. */
  datatype Limits = Limits(sndBuf: nat, queueLen: nat)

  // ----- enqueueing

  /** The segments tcp_enqueue builds: at least one, each of at most `mss` bytes. */
  function NewSegs(pos: int, data: seq<byte>, syn: bool, fin: bool, copy: bool, mss: nat): (q: seq<TxSeg>)
    requires mss > 0
    ensures q != [] && q[0].pos == pos
    decreases |data|
  {
    var n := if |data| > mss then mss else |data|;
    var s := TxSeg(pos, data[..n], syn, fin, if copy || n == 0 then 1 else 2);
    if n == |data| then [s] else [s] + NewSegs(pos + n, data[n..], syn, fin, copy, mss)
  }

  function Clen(q: seq<TxSeg>): nat {
    if q == [] then 0 else q[0].clen + Clen(q[1..])
  }

  /** May the first new segment be appended to the last unsent one? */
  predicate Joinable(u: TxSeg, s: TxSeg, mss: nat) {
    && u.Len() != 0 && !u.syn && !u.fin && !s.syn
    && |u.data| + |s.data| <= mss
    && u.DataEnd() == s.pos
  }

  function Join(u: TxSeg, s: TxSeg): TxSeg {
    if s.fin then u.(fin := true) else u.(data := u.data + s.data, clen := u.clen + 1)
  }

  /** Append the new segments to the unsent queue. */
  function Append(unsent: seq<TxSeg>, q: seq<TxSeg>, mss: nat): seq<TxSeg>
    requires q != []
  {
    if unsent != [] && Joinable(unsent[|unsent| - 1], q[0], mss) then
      unsent[..|unsent| - 1] + [Join(unsent[|unsent| - 1], q[0])] + (if q[0].fin then [] else q[1..])
    else unsent + q
  }

  /** tcp_enqueue: None when it reports an error. `mem` says whether memory was found. */
  function Enqueue(t: Tx, data: seq<byte>, syn: bool, fin: bool, copy: bool, mss: nat, mem: bool, l: Limits): Option<Tx>
    requires mss > 0
  {
    var q := NewSegs(t.lbb, data, syn, fin, copy, mss);
    if data == [] && !syn && !fin then None
    else if |data| > t.buf || t.qlen >= l.queueLen || t.qlen + Clen(q) > l.queueLen || !mem then None
    else
      var unsent := Append(t.unsent, q, mss);
      var len := |data| + if syn || fin then 1 else 0;
      Some(t.(unsent := unsent, lbb := t.lbb + len, buf := (t.buf - len) % 0x1_0000,
              qlen := t.qlen + Clen(unsent) - Clen(t.unsent), finQueued := t.finQueued || fin))
  }

  /** The segments of a queue that carry a FIN. */
  function Fins(q: seq<TxSeg>): nat {
    if q == [] then 0 else (if q[0].fin then 1 else 0) + Fins(q[1..])
  }

  // ----- output and retransmission

  /** Insert before the first segment that does not start lower. */
  function InsertSorted(q: seq<TxSeg>, s: TxSeg): seq<TxSeg> {
    if q == [] || !(q[0].pos < s.pos) then [s] + q else [q[0]] + InsertSorted(q[1..], s)
  }

  /** Does the Nagle test let the first unsent segment go? `now`: delay switched off, fast
      recovery, a failed enqueue, or the FIN queued. */
  predicate MaySend(t: Tx, mss: nat, now: bool) {
    t.unsent != [] && (now || t.unacked == [] || |t.unsent| > 1 || |t.unsent[0].data| >= mss)
  }

  /** Does the first unsent segment end inside the window? A 32-bit comparison: a segment ending
      below lastack counts as far outside. */
  predicate FitsWindow(t: Tx, wnd: nat) {
    t.unsent != [] && Wrap(t.unsent[0].DataEnd() - t.lastack) <= wnd
  }

  /** Send the first unsent segment. */
  function SendHead(t: Tx): Tx
    requires t.unsent != []
  {
    var s := t.unsent[0];
    t.(unsent := t.unsent[1..], unacked := InsertSorted(t.unacked, s),
       nxt := if t.nxt < s.End() then s.End() else t.nxt)
  }

  /** tcp_output with effective window `wnd`. */
  function Output(t: Tx, wnd: nat, mss: nat, now: bool): Tx
    decreases |t.unsent|
  {
    if FitsWindow(t, wnd) && MaySend(t, mss, now || t.finQueued) then Output(SendHead(t), wnd, mss, now) else t
  }

  /** tcp_rexmit: the first unacked segment goes back to the unsent queue, in order. */
  function Rexmit(t: Tx): Tx {
    if t.unacked == [] then t
    else t.(unacked := t.unacked[1..], unsent := InsertSorted(t.unsent, t.unacked[0]))
  }

  /** tcp_rexmit_rto: everything unacked goes back in front of the unsent queue. */
  function RexmitAll(t: Tx): Tx {
    if t.unacked == [] then t else t.(unacked := [], unsent := t.unacked + t.unsent)
  }

  // ----- acknowledgement

  /** How many leading segments end at or below `a`. */
  function AckedRun(q: seq<TxSeg>, a: int): (n: nat)
    ensures n <= |q|
  {
    if q == [] || q[0].End() > a then 0 else 1 + AckedRun(q[1..], a)
  }

  /** An ACK of new data: move lastack, credit the buffer, free what is acknowledged. */
  function AckData(t: Tx, a: int): Tx {
    if t.lastack < a <= t.nxt then
      var n := AckedRun(t.unacked, a);
      t.(lastack := a, buf := (t.buf + (a - t.lastack)) % 0x1_0000,
         unacked := t.unacked[n..], qlen := t.qlen - Clen(t.unacked[..n]))
    else t
  }

  /** How many leading segments pass the test on requeued ones: the ACK lies between the end of
      the segment and snd_nxt, compared on wrapped numbers. */
  function RequeuedRun(q: seq<TxSeg>, a: int, nxt: int): (n: nat)
    ensures n <= |q|
  {
    if q == [] || !SeqBetween(Wrap(a), Wrap(q[0].End()), Wrap(nxt)) then 0 else 1 + RequeuedRun(q[1..], a, nxt)
  }

  /** Requeued segments at the head of `unsent` may be acknowledged too. */
  function AckRequeued(t: Tx, a: int): Tx {
    var m := RequeuedRun(t.unsent, a, t.nxt);
    t.(unsent := t.unsent[m..], qlen := t.qlen - Clen(t.unsent[..m]))
  }

  /** The ACK processing of tcp_receive. The acknowledgement number is given by the position it
      stands for, less than 2^31 from snd_nxt. */
  function Ack(t: Tx, a: int): Tx {
    AckRequeued(AckData(t, a), a)
  }

  /** The SYN|ACK of an active open: `unacked` starts with our SYN. */
  function SynAcked(t: Tx): Tx
    requires t.unacked != []
  {
    t.(lastack := t.unacked[0].pos + 1, buf := (t.buf + 1) % 0x1_0000,
       qlen := t.qlen - 1, unacked := t.unacked[1..])
  }
}
