/** What the send queues of TcpTransmit carry: coverage of sequence space, contents, order. */
module TcpQueues {
  import opened Basics
  import opened SeqNum
  import opened TcpTransmit

  /** No window reaches further than this. */
  const SPAN := 0x1_0000

  /** How many segments of `q` carry position `n`. */
  function Cover(q: seq<TxSeg>, n: int): nat {
    if q == [] then 0 else (if q[0].pos <= n < q[0].End() then 1 else 0) + Cover(q[1..], n)
  }

  predicate Sorted(q: seq<TxSeg>) {
    forall i, j :: 0 <= i < j < |q| ==> q[i].pos < q[j].pos
  }

  /** After a segment not yet sent in full, everything queued lies above it. */
  predicate FreshTail(q: seq<TxSeg>, nxt: int) {
    forall i, j :: 0 <= i < j < |q| && q[i].End() > nxt ==> q[i].End() <= q[j].pos
  }

  /** `s` carries exactly what was queued at its positions; `log` starts at position `base`. */
  predicate Carries(s: TxSeg, base: int, log: seq<Unit>) {
    && base <= s.pos && s.End() <= base + |log|
    && 0 < s.Len() && |s.data| <= 0xffff && !(s.syn && s.fin) && (s.syn ==> s.data == [] && s.clen == 1)
    && s.Units() == log[s.pos - base..s.End() - base]
  }

  // ----- counting

  lemma {:induction false} CoverConcat(a: seq<TxSeg>, b: seq<TxSeg>, n: int)
    ensures Cover(a + b, n) == Cover(a, n) + Cover(b, n)
  {
    if a == [] {
      assert a + b == b;
    } else {
      assert (a + b)[1..] == a[1..] + b;
      CoverConcat(a[1..], b, n);
    }
  }

  lemma {:induction false} ClenConcat(a: seq<TxSeg>, b: seq<TxSeg>)
    ensures Clen(a + b) == Clen(a) + Clen(b)
  {
    if a == [] {
      assert a + b == b;
    } else {
      assert (a + b)[1..] == a[1..] + b;
      ClenConcat(a[1..], b);
    }
  }

  lemma {:induction false} FinsConcat(a: seq<TxSeg>, b: seq<TxSeg>)
    ensures Fins(a + b) == Fins(a) + Fins(b)
  {
    if a == [] {
      assert a + b == b;
    } else {
      assert (a + b)[1..] == a[1..] + b;
      FinsConcat(a[1..], b);
    }
  }

  /** If just the segments with a FIN cover position `n`, they are as many as cover it. */
  lemma {:induction false} FinsCover(q: seq<TxSeg>, n: int)
    requires forall s :: s in q ==> (s.fin <==> s.pos <= n < s.End())
    ensures Fins(q) == Cover(q, n)
  {
    if q != [] {
      assert q[0] in q;
      FinsCover(q[1..], n);
    }
  }

  lemma {:induction false} FinsNone(q: seq<TxSeg>)
    requires forall s :: s in q ==> !s.fin
    ensures Fins(q) == 0
  {
    if q != [] {
      FinsNone(q[1..]);
    }
  }

  lemma {:induction false} CoverAt(q: seq<TxSeg>, i: nat, n: int)
    requires i < |q| && q[i].pos <= n < q[i].End()
    ensures Cover(q, n) >= 1
  {
    if i > 0 {
      CoverAt(q[1..], i - 1, n);
    }
  }

  lemma {:induction false} CoverTwice(q: seq<TxSeg>, i: nat, j: nat, n: int)
    requires i < j < |q| && q[i].pos <= n < q[i].End() && q[j].pos <= n < q[j].End()
    ensures Cover(q, n) >= 2
  {
    if i == 0 {
      CoverAt(q[1..], j - 1, n);
    } else {
      CoverTwice(q[1..], i - 1, j - 1, n);
    }
  }

  lemma {:induction false} CoverNone(q: seq<TxSeg>, n: int)
    requires forall i :: 0 <= i < |q| ==> !(q[i].pos <= n < q[i].End())
    ensures Cover(q, n) == 0
  {
    if q != [] {
      CoverNone(q[1..], n);
    }
  }

  ghost predicate AtMostOnce(q: seq<TxSeg>) {
    forall n :: Cover(q, n) <= 1
  }

  /** Segments of a queue that carries nothing twice do not overlap. */
  lemma Apart(q: seq<TxSeg>, i: nat, j: nat)
    requires AtMostOnce(q) && i < |q| && j < |q| && i != j
    requires q[i].Len() > 0 && q[j].Len() > 0 && q[i].pos <= q[j].pos
    ensures q[i].End() <= q[j].pos
  {
    if q[i].End() > q[j].pos {
      CoverTwice(q, if i < j then i else j, if i < j then j else i, q[j].pos);
    }
  }

  // ----- sorted insertion

  lemma {:induction false} InsertSortedCounts(q: seq<TxSeg>, s: TxSeg, n: int)
    ensures Cover(InsertSorted(q, s), n) == Cover([s], n) + Cover(q, n)
    ensures Clen(InsertSorted(q, s)) == s.clen + Clen(q)
  {
    if q == [] || !(q[0].pos < s.pos) {
      assert ([s] + q)[1..] == q;
    } else {
      var r := InsertSorted(q[1..], s);
      assert ([q[0]] + r)[1..] == r;
      InsertSortedCounts(q[1..], s, n);
    }
  }

  lemma {:induction false} InsertSortedMembers(q: seq<TxSeg>, s: TxSeg)
    ensures forall x :: x in InsertSorted(q, s) <==> x == s || x in q
  {
    if q == [] || !(q[0].pos < s.pos) {
    } else {
      InsertSortedMembers(q[1..], s);
      assert q == [q[0]] + q[1..];
    }
  }

  lemma {:induction false} InsertSortedSorted(q: seq<TxSeg>, s: TxSeg)
    requires Sorted(q) && forall x :: x in q ==> x.pos != s.pos
    ensures Sorted(InsertSorted(q, s))
  {
    if q == [] || !(q[0].pos < s.pos) {
    } else {
      InsertSortedSorted(q[1..], s);
      InsertSortedMembers(q[1..], s);
      var r := InsertSorted(q[1..], s);
      assert forall j :: 0 <= j < |r| ==> r[j] in r;
    }
  }

  lemma {:induction false} InsertSortedFresh(q: seq<TxSeg>, s: TxSeg, nxt: int)
    requires FreshTail(q, nxt) && s.End() <= nxt && s.Len() > 0
    requires forall x :: x in q && x.pos < s.pos ==> x.End() <= s.pos
    ensures FreshTail(InsertSorted(q, s), nxt)
  {
    if q == [] || !(q[0].pos < s.pos) {
    } else {
      InsertSortedFresh(q[1..], s, nxt);
      InsertSortedMembers(q[1..], s);
      var r := InsertSorted(q[1..], s);
      assert q[0] in q;
      assert forall j :: 0 <= j < |r| ==> r[j] in r;
    }
  }

  // ----- acknowledged prefixes

  lemma {:induction false} AckedRunCounts(q: seq<TxSeg>, a: int, n: int)
    ensures Cover(q[AckedRun(q, a)..], n) <= Cover(q, n)
    ensures n >= a ==> Cover(q[AckedRun(q, a)..], n) == Cover(q, n)
    ensures Clen(q[..AckedRun(q, a)]) + Clen(q[AckedRun(q, a)..]) == Clen(q)
  {
    var k := AckedRun(q, a);
    assert q == q[..k] + q[k..];
    ClenConcat(q[..k], q[k..]);
    CoverConcat(q[..k], q[k..], n);
    if n >= a {
      AckedRunBelow(q, a);
      CoverNone(q[..k], n);
    }
  }

  /** Only segments acknowledged in full are dropped, and the first one kept is not. */
  lemma {:induction false} AckedRunBelow(q: seq<TxSeg>, a: int)
    ensures forall i :: 0 <= i < AckedRun(q, a) ==> q[i].End() <= a
    ensures AckedRun(q, a) < |q| ==> q[AckedRun(q, a)].End() > a
  {
    if q != [] && q[0].End() <= a {
      AckedRunBelow(q[1..], a);
      assert forall i :: 0 < i < |q| ==> q[i] == q[1..][i - 1];
    }
  }

  // ----- segments on `unsent` that an ACK frees

  /** Exactly when the test on requeued segments passes, for an ACK anywhere in sequence space:
      the ACK covers the segment and nothing unsent, or the segment was never sent in full and
      the ACK lies more than 2^31 behind its end. */
  lemma RequeuedTest(a: int, end: int, nxt: int)
    requires nxt - HALF32 <= a < nxt + HALF32 && nxt - SPAN <= end <= nxt + SPAN
    ensures SeqBetween(Wrap(a), Wrap(end), Wrap(nxt)) <==>
            end <= a <= nxt || (end > nxt && a < end - HALF32)
  {
    Compare(a, nxt);
    if a - end < -HALF32 {
      ModShift(a, 1);
      Compare(a + MOD32, end);
    } else if a - end >= HALF32 {
      ModShift(a, -1);
      Compare(a - MOD32, end);
    } else {
      Compare(a, end);
    }
  }

  predicate EndsNear(q: seq<TxSeg>, nxt: int) {
    forall i :: 0 <= i < |q| ==> nxt - SPAN <= q[i].End() <= nxt + SPAN
  }

  /** The ACK passes for the head of the queue although that was never sent in full. */
  predicate Misfires(q: seq<TxSeg>, a: int, nxt: int) {
    q != [] && q[0].End() > nxt && a < q[0].End() - HALF32
  }

  /** Otherwise the loop frees the leading segments the ACK covers. */
  lemma {:induction false} RequeuedRunIs(q: seq<TxSeg>, a: int, nxt: int)
    requires nxt - HALF32 <= a < nxt + HALF32 && EndsNear(q, nxt) && !Misfires(q, a, nxt)
    ensures RequeuedRun(q, a, nxt) == if a <= nxt then AckedRun(q, a) else 0
  {
    hide Wrap, SeqBetween;
    if q != [] {
      RequeuedTest(a, q[0].End(), nxt);
      if q[0].End() <= a <= nxt {
        assert forall i :: 0 <= i < |q[1..]| ==> q[1..][i] == q[i + 1];
        RequeuedRunIs(q[1..], a, nxt);
      }
    }
  }

  /** When it misfires it goes through the whole queue. */
  lemma {:induction false} MisfireAll(q: seq<TxSeg>, a: int, nxt: int)
    requires nxt - HALF32 <= a < nxt + HALF32 && EndsNear(q, nxt) && Misfires(q, a, nxt) && FreshTail(q, nxt)
    ensures RequeuedRun(q, a, nxt) == |q|
  {
    hide Wrap, SeqBetween;
    RequeuedTest(a, q[0].End(), nxt);
    if |q| > 1 {
      assert q[0].End() <= q[1].pos <= q[1].End();
      assert forall i :: 0 <= i < |q[1..]| ==> q[1..][i] == q[i + 1];
      MisfireAll(q[1..], a, nxt);
    } else {
      assert q[1..] == [];
    }
  }

  // ----- new segments

  lemma UnitsLen(s: TxSeg)
    requires !(s.syn && s.fin)
    ensures |s.Units()| == s.Len()
  {
  }

  function UnitsOf(data: seq<byte>, syn: bool, fin: bool): seq<Unit> {
    TxSeg(0, data, syn, fin, 0).Units()
  }

  /** The new segments tile the enqueued data in order. */
  lemma {:induction false} NewSegsTile(pos: int, data: seq<byte>, syn: bool, fin: bool, copy: bool, mss: nat, n: int)
    requires mss > 0 && !(syn && fin) && (syn || fin ==> data == [])
    ensures var q := NewSegs(pos, data, syn, fin, copy, mss);
            Cover(q, n) == if pos <= n < pos + |UnitsOf(data, syn, fin)| then 1 else 0
    decreases |data|
  {
    var q := NewSegs(pos, data, syn, fin, copy, mss);
    if |data| > mss {
      NewSegsTile(pos + mss, data[mss..], syn, fin, copy, mss, n);
      assert q[1..] == NewSegs(pos + mss, data[mss..], syn, fin, copy, mss);
    } else {
      assert data[..|data|] == data;
      assert q[1..] == [];
    }
  }

  predicate Ascending(q: seq<TxSeg>, pos: int) {
    && (forall i :: 0 <= i < |q| ==> pos <= q[i].pos)
    && (forall i, j :: 0 <= i < j < |q| ==> q[i].End() <= q[j].pos)
  }

  lemma {:induction false} NewSegsOrder(pos: int, data: seq<byte>, syn: bool, fin: bool, copy: bool, mss: nat)
    requires mss > 0 && !(syn && fin) && (syn || fin ==> data == [])
    ensures var q := NewSegs(pos, data, syn, fin, copy, mss);
            Ascending(q, pos) && (syn || fin ==> |q| == 1)
    decreases |data|
  {
    if |data| > mss {
      NewSegsOrder(pos + mss, data[mss..], syn, fin, copy, mss);
      var r := NewSegs(pos + mss, data[mss..], syn, fin, copy, mss);
      var q := NewSegs(pos, data, syn, fin, copy, mss);
      assert q == [q[0]] + r && Ascending(r, pos + mss);
    }
  }

  lemma {:induction false} NewSegsCarry(pos: int, data: seq<byte>, syn: bool, fin: bool, copy: bool, mss: nat,
                                        base: int, log: seq<Unit>)
    requires 0 < mss <= 0xffff && !(syn && fin) && (syn || fin ==> data == [])
    requires data != [] || syn || fin
    requires base <= pos && pos + |UnitsOf(data, syn, fin)| <= base + |log|
    requires UnitsOf(data, syn, fin) == log[pos - base..pos - base + |UnitsOf(data, syn, fin)|]
    ensures forall s :: s in NewSegs(pos, data, syn, fin, copy, mss) ==> Carries(s, base, log)
    decreases |data|
  {
    if |data| > mss {
      var u, v, w := UnitsOf(data, false, false), UnitsOf(data[..mss], false, false), UnitsOf(data[mss..], false, false);
      assert u[..mss] == v && u[mss..] == w;
      assert u[..mss] == log[pos - base..pos - base + mss];
      assert u[mss..] == log[pos + mss - base..pos - base + |u|];
      NewSegsCarry(pos + mss, data[mss..], syn, fin, copy, mss, base, log);
      var s := TxSeg(pos, data[..mss], syn, fin, if copy then 1 else 2);
      assert s.Units() == v;
    } else {
      assert data[..|data|] == data;
    }
  }
}
