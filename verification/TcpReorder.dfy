/**
 The receive side of a TCP connection on unwrapped sequence positions: the out-of-order
 queue, delivery, and the announced window. A position is an integer whose value modulo
 2^32 is the sequence number on the wire.
 */
module TcpReorder {
  import opened Basics
  import opened SeqNum

  /** A segment: its data occupies [pos, DataEnd()), a FIN one position more. */
  datatype Seg = Seg(pos: int, data: seq<byte>, fin: bool) {
    function DataEnd(): int { pos + |data| }
    function Len(): nat { |data| + if fin then 1 else 0 }
    function End(): int { pos + Len() }
  }

  /** What the peer sends: `bytes` from position `base`, then a FIN. */
  datatype Stream = Stream(base: int, bytes: seq<byte>) {
    function FinPos(): int { base + |bytes| }

    /** The bytes at positions [a, b). */
    function Range(a: int, b: int): (r: seq<byte>)
      requires base <= a <= b <= FinPos()
      ensures |r| == b - a
    {
      bytes[a - base..b - base]
    }
  }

  lemma RangeJoin(st: Stream, a: int, b: int, c: int)
    requires st.base <= a <= b <= c <= st.FinPos()
    ensures st.Range(a, b) + st.Range(b, c) == st.Range(a, c)
  {
  }

  lemma RangeCut(st: Stream, a: int, b: int, m: int)
    requires st.base <= a <= m <= b <= st.FinPos()
    ensures st.Range(a, b)[..m - a] == st.Range(a, m)
    ensures st.Range(a, b)[m - a..] == st.Range(m, b)
  {
  }

  /** `s` carries exactly the bytes the stream has at its positions. */
  predicate CutFrom(s: Seg, st: Stream) {
    && st.base <= s.pos
    && s.DataEnd() <= st.FinPos()
    && s.data == st.Range(s.pos, s.DataEnd())
    && (s.fin ==> s.DataEnd() == st.FinPos())
  }

  /** Sorted by position, pairwise disjoint, all strictly above `lo` and ending at or below `hi`. */
  predicate QueueOk(q: seq<Seg>, lo: int, hi: int, st: Stream) {
    q == [] ||
    (&& lo < q[0].pos
     && CutFrom(q[0], st)
     && q[0].Len() > 0
     && q[0].End() <= hi
     && QueueOk(q[1..], q[0].End() - 1, hi, st))
  }

  /** Position `n` is data held by the queue. */
  predicate Holds(q: seq<Seg>, n: int) {
    exists i :: 0 <= i < |q| && q[i].pos <= n < q[i].DataEnd()
  }

  // ----- queue operations

  /** Keep the data of `s` below `pos`. */
  function CutAt(s: Seg, pos: int): Seg {
    if s.pos <= pos < s.DataEnd() then s.(data := s.data[..pos - s.pos]) else s
  }

  /** Drop the leading segments of `q` whose data ends inside `s`, taking over their FIN.
      `finCounts` says whether a FIN already taken over extends the reach of `s`. */
  function Swallow(s: Seg, q: seq<Seg>, finCounts: bool): (Seg, seq<Seg>)
    decreases |q|
  {
    if q == [] || (if finCounts then s.End() else s.DataEnd()) < q[0].DataEnd() then (s, q)
    else Swallow(if q[0].fin then s.(fin := true) else s, q[1..], finCounts)
  }

  /** Put `s` in front of `q`, whose segments do not start below `s`. */
  function Merge(s: Seg, q: seq<Seg>): seq<Seg> {
    if s.fin then [s]
    else
      var (t, rest) := Swallow(s, q, false);
      [if rest == [] then t else CutAt(t, rest[0].pos)] + rest
  }

  /** Queue the out-of-order segment `s`. */
  function Insert(q: seq<Seg>, s: Seg): seq<Seg> {
    if q == [] then [s]
    else if s.pos < q[0].pos then Merge(s, q)
    else if s.pos == q[0].pos then (if |s.data| > |q[0].data| then Merge(s, q) else q)
    else if |q| == 1 then (if q[0].fin then q else [CutAt(q[0], s.pos), s])
    else if s.pos < q[1].pos then [CutAt(q[0], s.pos)] + Merge(s, q[1..])
    else [q[0]] + Insert(q[1..], s)
  }

  /** The in-order segment `s` against the queue: what is delivered of it, and the queue left.
      After a partial overlap the cut is at the position the queue head had on entry. */
  function Overlap(s: Seg, q: seq<Seg>): (Seg, seq<Seg>) {
    if q == [] then (s, q)
    else if s.fin then (s, [])
    else
      var (t, rest) := Swallow(s, q, true);
      (if rest != [] && t.End() > rest[0].pos then CutAt(t, q[0].pos) else t, rest)
  }

  datatype Drained = Drained(nxt: int, data: seq<byte>, fin: bool, rest: seq<Seg>)

  /** Take the segments at the head of the queue that are now in sequence. */
  function Drain(nxt: int, q: seq<Seg>): Drained
    decreases |q|
  {
    if q == [] || q[0].pos != nxt then Drained(nxt, [], false, q)
    else
      var d := Drain(q[0].End(), q[1..]);
      d.(data := q[0].data + d.data, fin := q[0].fin || d.fin)
  }

  // ----- what the queue operations keep

  lemma QueueWeaken(q: seq<Seg>, lo: int, lo': int, hi: int, st: Stream)
    requires QueueOk(q, lo, hi, st)
    requires q == [] || lo' < q[0].pos
    ensures QueueOk(q, lo', hi, st)
  {
  }

  lemma CutKeeps(s: Seg, pos: int, st: Stream)
    requires CutFrom(s, st) && !s.fin && s.pos < pos
    ensures CutFrom(CutAt(s, pos), st) && CutAt(s, pos).pos == s.pos && !CutAt(s, pos).fin
    ensures CutAt(s, pos).DataEnd() == if pos < s.DataEnd() then pos else s.DataEnd()
  {
    if pos < s.DataEnd() {
      RangeCut(st, s.pos, s.DataEnd(), pos);
    }
  }

  /** Swallowing leaves a sorted tail that ends beyond `s`, and a FIN only if nothing is left. */
  lemma {:induction false} SwallowOk(s: Seg, q: seq<Seg>, finCounts: bool, lo: int, hi: int, st: Stream)
    requires CutFrom(s, st) && QueueOk(q, lo, hi, st) && s.pos <= lo + 1
    requires s.fin ==> q == []
    requires s.End() <= hi
    ensures var (t, rest) := Swallow(s, q, finCounts);
            && CutFrom(t, st) && t.pos == s.pos && t.data == s.data
            && QueueOk(rest, lo, hi, st)
            && (s.fin ==> t.fin) && (t.fin ==> rest == [])
            && t.End() <= hi
            && (rest != [] ==> t.End() < rest[0].DataEnd())
    decreases |q|
  {
    if q == [] || (if finCounts then s.End() else s.DataEnd()) < q[0].DataEnd() {
    } else {
      var s' := if q[0].fin then s.(fin := true) else s;
      assert q[0].fin ==> q[1..] == [];
      QueueWeaken(q[1..], q[0].End() - 1, lo, hi, st);
      SwallowOk(s', q[1..], finCounts, lo, hi, st);
    }
  }

  lemma MergeOk(s: Seg, q: seq<Seg>, lo: int, hi: int, st: Stream)
    requires CutFrom(s, st) && s.Len() > 0 && lo < s.pos && s.End() <= hi
    requires QueueOk(q, s.pos - 1, hi, st)
    requires q != [] && q[0].pos == s.pos ==> |s.data| > |q[0].data|
    ensures QueueOk(Merge(s, q), lo, hi, st)
  {
    if s.fin {
    } else {
      // everything left after swallowing starts strictly above s
      if q != [] && q[0].pos == s.pos {
        QueueWeaken(q[1..], q[0].End() - 1, s.pos, hi, st);
        SwallowOk(s, q[1..], false, s.pos, hi, st);
      } else {
        QueueWeaken(q, s.pos - 1, s.pos, hi, st);
        SwallowOk(s, q, false, s.pos, hi, st);
      }
      var (t, rest) := Swallow(s, q, false);
      var t' := if rest == [] then t else CutAt(t, rest[0].pos);
      if rest != [] {
        hide CutAt;
        CutKeeps(t, rest[0].pos, st);
        QueueWeaken(rest, s.pos, t'.End() - 1, hi, st);
      }
      assert Merge(s, q)[1..] == rest;
    }
  }

  /** Insertion keeps the queue sorted, disjoint, in the window and cut from the stream. */
  lemma {:induction false} InsertOk(q: seq<Seg>, s: Seg, lo: int, hi: int, st: Stream)
    requires CutFrom(s, st) && s.Len() > 0 && lo < s.pos && s.End() <= hi
    requires QueueOk(q, lo, hi, st)
    ensures QueueOk(Insert(q, s), lo, hi, st)
    decreases |q|
  {
    hide Merge, CutAt;
    if q == [] {
    } else if s.pos <= q[0].pos {
      QueueWeaken(q, lo, s.pos - 1, hi, st);
      if s.pos < q[0].pos || |s.data| > |q[0].data| {
        MergeOk(s, q, lo, hi, st);
      }
    } else if |q| == 1 {
      if !q[0].fin {
        CutKeeps(q[0], s.pos, st);
        var c := CutAt(q[0], s.pos);
        assert QueueOk([s], c.End() - 1, hi, st);
        assert Insert(q, s) == [c, s] && [c, s][1..] == [s];
      }
    } else if s.pos < q[1].pos {
      CutKeeps(q[0], s.pos, st);
      var c := CutAt(q[0], s.pos);
      QueueWeaken(q[1..], q[0].End() - 1, s.pos - 1, hi, st);
      MergeOk(s, q[1..], c.End() - 1, hi, st);
      assert Insert(q, s)[1..] == Merge(s, q[1..]);
    } else {
      InsertOk(q[1..], s, q[0].End() - 1, hi, st);
      assert Insert(q, s)[1..] == Insert(q[1..], s);
    }
  }

  lemma {:induction false} DrainOk(nxt: int, q: seq<Seg>, hi: int, st: Stream)
    requires st.base <= nxt <= st.FinPos()
    requires QueueOk(q, nxt - 1, hi, st) && nxt <= hi
    ensures var d := Drain(nxt, q);
            && nxt <= d.nxt <= hi && d.nxt <= st.FinPos() + 1
            && d.fin == (d.nxt == st.FinPos() + 1)
            && d.data == st.Range(nxt, if d.fin then st.FinPos() else d.nxt)
            && QueueOk(d.rest, d.nxt, hi, st)
    decreases |q|
  {
    if q == [] {
    } else if q[0].pos != nxt {
      QueueWeaken(q, nxt - 1, nxt, hi, st);
    } else if q[0].fin {
      assert q[1..] == [];
    } else {
      DrainOk(q[0].End(), q[1..], hi, st);
      DrainHead(nxt, q);
      RangeJoin(st, nxt, q[0].End(), if Drain(nxt, q).fin then st.FinPos() else Drain(nxt, q).nxt);
    }
  }

  lemma DrainHead(nxt: int, q: seq<Seg>)
    requires q != [] && q[0].pos == nxt
    ensures var d := Drain(q[0].End(), q[1..]);
            Drain(nxt, q) == d.(data := q[0].data + d.data, fin := q[0].fin || d.fin)
  {
  }

  /** The in-order segment after overlap removal joins the queue without a gap being skipped. */
  lemma OverlapOk(s: Seg, q: seq<Seg>, hi: int, st: Stream)
    requires CutFrom(s, st) && s.Len() > 0 && s.End() <= hi
    requires QueueOk(q, s.pos, hi, st)
    ensures var (t, rest) := Overlap(s, q);
            && CutFrom(t, st) && t.pos == s.pos && 0 < t.Len() && t.End() <= hi
            && QueueOk(rest, t.End() - 1, hi, st)
            && (t.fin ==> rest == [])
  {
    if q == [] || s.fin {
    } else {
      SwallowOk(s, q, true, s.pos, hi, st);
      SwallowRest(s, q, s.pos, hi, st);
      var (t, rest) := Swallow(s, q, true);
      if rest != [] {
        CutKeeps(t, q[0].pos, st);
        var t' := Overlap(s, q).0;
        QueueWeaken(rest, s.pos, t'.End() - 1, hi, st);
      }
    }
  }

  /** What is left after swallowing never starts below the old head. */
  lemma {:induction false} SwallowRest(s: Seg, q: seq<Seg>, lo: int, hi: int, st: Stream)
    requires q != [] && QueueOk(q, lo, hi, st)
    ensures var rest := Swallow(s, q, true).1; rest != [] ==> rest[0].pos >= q[0].pos
    decreases |q|
  {
    if s.End() >= q[0].DataEnd() && |q| > 1 {
      SwallowRest(if q[0].fin then s.(fin := true) else s, q[1..], q[0].End() - 1, hi, st);
    }
  }

  // ----- what insertion holds on to

  lemma HoldsConcat(a: seq<Seg>, b: seq<Seg>, n: int)
    ensures Holds(a + b, n) <==> Holds(a, n) || Holds(b, n)
  {
    if Holds(a, n) {
      var i :| 0 <= i < |a| && a[i].pos <= n < a[i].DataEnd();
      assert (a + b)[i] == a[i];
    }
    if Holds(b, n) {
      var i :| 0 <= i < |b| && b[i].pos <= n < b[i].DataEnd();
      assert (a + b)[|a| + i] == b[i];
    }
  }

  lemma {:induction false} SwallowHolds(s: Seg, q: seq<Seg>, n: int)
    requires s.pos <= n && Holds(q, n)
    ensures n < s.DataEnd() || Holds(Swallow(s, q, false).1, n)
    decreases |q|
  {
    if s.DataEnd() >= q[0].DataEnd() {
      HoldsConcat([q[0]], q[1..], n);
      assert q == [q[0]] + q[1..];
      if Holds(q[1..], n) {
        SwallowHolds(if q[0].fin then s.(fin := true) else s, q[1..], n);
      } else {
        assert n < q[0].DataEnd();
      }
    }
  }

  lemma {:induction false} SwallowSame(s: Seg, q: seq<Seg>)
    ensures Swallow(s, q, false).0.pos == s.pos && Swallow(s, q, false).0.data == s.data
    ensures var rest := Swallow(s, q, false).1; rest != [] ==> s.DataEnd() < rest[0].DataEnd()
    decreases |q|
  {
    if q != [] && s.DataEnd() >= q[0].DataEnd() {
      SwallowSame(if q[0].fin then s.(fin := true) else s, q[1..]);
    }
  }

  lemma MergeHolds(s: Seg, q: seq<Seg>, lo: int, hi: int, st: Stream, n: int)
    requires CutFrom(s, st) && QueueOk(q, lo, hi, st)
    requires s.pos <= n && (n < s.DataEnd() || Holds(q, n))
    ensures Holds(Merge(s, q), n)
  {
    if s.fin {
      if n >= s.DataEnd() {
        HeldBelowFin(q, lo, hi, st, n);
      }
      assert Merge(s, q)[0] == s;
    } else {
      var (t, rest) := Swallow(s, q, false);
      SwallowSame(s, q);
      if Holds(q, n) {
        SwallowHolds(s, q, n);
      }
      var t' := if rest == [] then t else CutAt(t, rest[0].pos);
      HoldsConcat([t'], rest, n);
      assert n < t'.DataEnd() ==> [t'][0].pos <= n < [t'][0].DataEnd();
      assert rest != [] && rest[0].pos <= n < rest[0].DataEnd() ==> Holds(rest, n);
    }
  }

  lemma {:induction false} HeldBelowFin(q: seq<Seg>, lo: int, hi: int, st: Stream, n: int)
    requires QueueOk(q, lo, hi, st) && Holds(q, n)
    ensures n < st.FinPos()
    decreases |q|
  {
    var i :| 0 <= i < |q| && q[i].pos <= n < q[i].DataEnd();
    if i > 0 {
      assert q[1..][i - 1] == q[i];
      HeldBelowFin(q[1..], q[0].End() - 1, hi, st, n);
    }
  }

  /** Nothing of the new segment is lost, and of the old data only what a segment starting
      below `s` held beyond the end of `s`. */
  lemma {:induction false} InsertHolds(q: seq<Seg>, s: Seg, lo: int, hi: int, st: Stream, n: int)
    requires CutFrom(s, st) && s.Len() > 0 && lo < s.pos
    requires QueueOk(q, lo, hi, st)
    requires || s.pos <= n < s.DataEnd()
             || (Holds(q, n) && !(s.DataEnd() <= n && Straddles(q, s.pos, n)))
    ensures Holds(Insert(q, s), n)
    decreases |q|
  {
    if q == [] {
      assert [s][0].pos <= n < s.DataEnd();
    } else if s.pos <= q[0].pos {
      if s.pos < q[0].pos || |s.data| > |q[0].data| {
        HeldAbove(q, lo, hi, st, n);
        MergeHolds(s, q, lo, hi, st, n);
      } else {
        assert q[0].pos <= n < q[0].DataEnd() ==> Holds(q, n);
      }
    } else {
      var c := CutAt(q[0], s.pos);
      assert q == [q[0]] + q[1..];
      HoldsConcat([q[0]], q[1..], n);
      HeldAbove(q, lo, hi, st, n);
      if Holds(q[1..], n) { HeldAbove(q[1..], q[0].End() - 1, hi, st, n); }
      if Straddles(q[1..], s.pos, n) {
        var i :| 0 <= i < |q[1..]| && q[1..][i].pos < s.pos && n < q[1..][i].DataEnd();
        assert q[i + 1] == q[1..][i];
      }
      if |q| == 1 {
        assert q[0].pos <= n < q[0].DataEnd() ==> Holds(q, n);
        if !q[0].fin {
          HoldsConcat([c], [s], n);
          assert [c] + [s] == Insert(q, s);
          if s.pos <= n < s.DataEnd() {
            assert [s][0].pos <= n;
          } else {
            assert q[0].pos < s.pos && n < q[0].DataEnd();
            assert [c][0].pos <= n < c.DataEnd();
          }
        }
      } else if s.pos < q[1].pos {
        HoldsConcat([c], Merge(s, q[1..]), n);
        if s.pos <= n < s.DataEnd() || Holds(q[1..], n) {
          MergeHolds(s, q[1..], q[0].End() - 1, hi, st, n);
        } else {
          assert q[0].pos < s.pos && n < q[0].DataEnd();
          assert [c][0].pos <= n < c.DataEnd();
        }
      } else {
        HoldsConcat([q[0]], Insert(q[1..], s), n);
        if s.pos <= n < s.DataEnd() || Holds(q[1..], n) {
          InsertHolds(q[1..], s, q[0].End() - 1, hi, st, n);
        }
      }
    }
  }

  /** Some segment starting below `pos` reaches beyond `n`. */
  predicate Straddles(q: seq<Seg>, pos: int, n: int) {
    exists i :: 0 <= i < |q| && q[i].pos < pos && n < q[i].DataEnd()
  }

  lemma {:induction false} HeldAbove(q: seq<Seg>, lo: int, hi: int, st: Stream, n: int)
    requires QueueOk(q, lo, hi, st)
    ensures Holds(q, n) ==> q[0].pos <= n
    decreases |q|
  {
    if Holds(q, n) {
      var i :| 0 <= i < |q| && q[i].pos <= n < q[i].DataEnd();
      if i > 0 {
        assert q[1..][i - 1] == q[i];
        HeldAbove(q[1..], q[0].End() - 1, hi, st, n);
      }
    }
  }

  /** The queue invariant spelled out index by index. */
  lemma {:induction false} QueueOrder(q: seq<Seg>, lo: int, hi: int, st: Stream)
    requires QueueOk(q, lo, hi, st)
    ensures forall i :: 0 <= i < |q| ==> lo < q[i].pos < q[i].End() <= hi && CutFrom(q[i], st)
    ensures forall i, j :: 0 <= i < j < |q| ==> q[i].End() <= q[j].pos
    ensures forall i :: 0 <= i < |q| && q[i].fin ==> i == |q| - 1
    decreases |q|
  {
    if q != [] {
      var t := q[1..];
      QueueOrder(t, q[0].End() - 1, hi, st);
      assert forall i :: 0 < i < |q| ==> q[i] == t[i - 1];
    }
  }

  /** Segments that start below `s` and are not last before it are stepped over. */
  lemma {:induction false} InsertSkip(q: seq<Seg>, s: Seg, i: nat)
    requires i < |q| && q[i].pos <= s.pos
    requires forall j :: 0 <= j < i ==> q[j].pos < s.pos
    ensures Insert(q, s) == q[..i] + Insert(q[i..], s)
    decreases |q|
  {
    hide Merge, CutAt;
    if i == 0 {
      assert q[0..] == q;
    } else {
      var t := q[1..];
      assert q[1].pos <= s.pos;
      InsertSkip(t, s, i - 1);
      assert t[i - 1..] == q[i..] && [q[0]] + t[..i - 1] == q[..i];
    }
  }

  // Where insertion puts `s`, seen from index `i`.
  lemma InsertSame(q: seq<Seg>, s: Seg, i: nat)
    requires i < |q| && q[i].pos == s.pos
    requires forall j :: 0 <= j < i ==> q[j].pos < s.pos
    ensures Insert(q, s) == if |s.data| > |q[i].data| then q[..i] + Merge(s, q[i..]) else q
  {
    hide Merge, CutAt;
    InsertSkip(q, s, i);
    assert q == q[..i] + q[i..];
  }

  lemma InsertBetween(q: seq<Seg>, s: Seg, i: nat)
    requires 0 < i < |q| && s.pos < q[i].pos
    requires forall j :: 0 <= j < i ==> q[j].pos < s.pos
    ensures Insert(q, s) == q[..i - 1] + [CutAt(q[i - 1], s.pos)] + Merge(s, q[i..])
  {
    hide Merge, CutAt;
    InsertSkip(q, s, i - 1);
    assert q[i - 1..][1..] == q[i..];
  }

  lemma InsertLast(q: seq<Seg>, s: Seg, i: nat)
    requires |q| == i + 1
    requires forall j :: 0 <= j <= i ==> q[j].pos < s.pos
    ensures Insert(q, s) == if q[i].fin then q else q[..i] + [CutAt(q[i], s.pos), s]
  {
    hide Merge, CutAt;
    InsertSkip(q, s, i);
    assert q == q[..i] + q[i..];
  }
}
