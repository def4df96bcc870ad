/**
 IP reassembly of ip_frag.c: the queue of one datagram, what a returned datagram holds, and the
 round trip with fragmentation.
 */
module IpReass {
  import opened Basics
  import opened IpFrag

  /** A queued fragment: first byte, byte behind the last (16 bits), payload, number of pbufs. */
  datatype Piece = Piece(start: u16, end: u16, data: seq<u8>, clen: nat)

  /** struct ip_reassdata without key and timer; `len` is set when the last fragment is seen. */
  datatype Gram = Gram(queue: seq<Piece>, last: bool, len: u16)

  const EMPTY: Gram := Gram([], false, 0)

  // ----- one fragment

  /** Where the walk along the queue stops. */
  function Pos(q: seq<Piece>, n: Piece): (i: nat)
    ensures i <= |q|
    ensures forall j :: 0 <= j < i ==> q[j].start < n.start && q[j].end <= n.start
    ensures i < |q| ==> n.start <= q[i].start || n.start < q[i].end
  {
    if q == [] || n.start <= q[0].start || n.start < q[0].end then 0 else 1 + Pos(q[1..], n)
  }

  /** A duplicate, or an overlap; the overlap behind is not looked for at the front of the queue. */
  predicate Refused(q: seq<Piece>, n: Piece) {
    var i := Pos(q, n);
    i < |q| && (q[i].start <= n.start || (i > 0 && n.end > q[i].start))
  }

  function Linked(q: seq<Piece>, n: Piece): seq<Piece> {
    var i := Pos(q, n);
    q[..i] + [n] + q[i..]
  }

  /** Is there no hole between pieces j and j + 1? */
  predicate Abuts(q: seq<Piece>, j: nat)
    requires j + 1 < |q|
  {
    q[j].end == q[j + 1].start
  }

  /** The pair that the validation leaves out: a piece linked in between two others and the one
      before it. */
  predicate Unchecked(q: seq<Piece>, i: nat, j: nat) {
    j + 1 == i && i + 1 < |q|
  }

  predicate Checked(q: seq<Piece>, i: nat) {
    forall j: nat :: j + 1 < |q| && !Unchecked(q, i, j) ==> Abuts(q, j)
  }

  /** Take note of the last fragment, even if it is refused later. */
  function Note(g: Gram, n: Piece, mf: bool): Gram {
    if mf then g else g.(last := true, len := n.end)
  }

  function Chain(g: Gram, n: Piece): Gram {
    if Refused(g.queue, n) then g else g.(queue := Linked(g.queue, n))
  }

  /** Does this fragment complete the datagram, as the code sees it? */
  predicate Done(g: Gram, n: Piece) {
    && g.last && !Refused(g.queue, n)
    && Linked(g.queue, n)[0].start == 0 && Checked(Linked(g.queue, n), Pos(g.queue, n))
  }

  function Data(q: seq<Piece>): seq<u8> {
    if q == [] then [] else q[0].data + Data(q[1..])
  }

  // ----- what is returned

  /** A fragment of `whole`. */
  predicate Of(n: Piece, whole: seq<u8>) {
    n.start <= n.end <= |whole| && n.data == whole[n.start..n.end]
  }

  /** All that is queued belongs to `whole`, whose length is known once the last part was seen. */
  ghost predicate Honest(g: Gram, whole: seq<u8>) {
    (forall p :: p in g.queue ==> Of(p, whole)) && (g.last ==> g.len == |whole|)
  }

  lemma {:induction false} DataJoin(a: seq<Piece>, b: seq<Piece>)
    ensures Data(a + b) == Data(a) + Data(b)
    decreases |a|
  {
    if a == [] {
      assert a + b == b;
    } else {
      DataJoin(a[1..], b);
      assert (a + b)[1..] == a[1..] + b;
    }
  }

  /** Pieces without a hole are a stretch of the datagram. */
  lemma {:induction false} DataAbut(q: seq<Piece>, whole: seq<u8>)
    requires q != [] && (forall p :: p in q ==> Of(p, whole))
    requires forall j: nat :: j + 1 < |q| ==> Abuts(q, j)
    ensures q[0].start <= q[|q| - 1].end <= |whole| && Data(q) == whole[q[0].start..q[|q| - 1].end]
    decreases |q|
  {
    hide Of, Data, Abuts;
    var n, rest := q[0], q[1..];
    DataHead(q);
    OfIs(n, whole);
    if rest == [] {
      assert Data(rest) == [] by { DataNone(); }
    } else {
      AbutsTail(q);
      DataAbut(rest, whole);
      assert whole[n.start..n.end] + whole[n.end..q[|q| - 1].end] == whole[n.start..q[|q| - 1].end];
    }
  }

  lemma OfIs(n: Piece, whole: seq<u8>)
    requires Of(n, whole)
    ensures n.start <= n.end <= |whole| && n.data == whole[n.start..n.end]
  {
  }

  lemma DataNone()
    ensures Data([]) == []
  {
  }

  lemma AbutsTail(q: seq<Piece>)
    requires |q| > 1 && forall j: nat :: j + 1 < |q| ==> Abuts(q, j)
    ensures q[0].end == q[1..][0].start && forall j: nat :: j + 1 < |q[1..]| ==> Abuts(q[1..], j)
  {
    assert Abuts(q, 0);
    forall j: nat | j + 1 < |q[1..]| ensures Abuts(q[1..], j) {
      assert Abuts(q, j + 1);
    }
  }

  lemma DataHead(q: seq<Piece>)
    requires q != []
    ensures Data(q) == q[0].data + Data(q[1..])
  {
  }

  /** The two stretches on both sides of piece `i`. */
  lemma SplicedParts(q: seq<Piece>, i: nat)
    requires 0 < i < |q| - 1 && Checked(q, i)
    ensures forall j: nat :: j + 1 < |q[..i]| ==> Abuts(q[..i], j)
    ensures forall j: nat :: j + 1 < |q[i..]| ==> Abuts(q[i..], j)
  {
    hide Abuts;
    forall j: nat | j + 1 < i ensures Abuts(q[..i], j) {
      assert Abuts(q, j);
      AbutsSame(q, j, q[..i], j);
    }
    forall j: nat | j + 1 < |q[i..]| ensures Abuts(q[i..], j) {
      assert !Unchecked(q, i, i + j) && Abuts(q, i + j);
      AbutsSame(q, i + j, q[i..], j);
    }
  }

  lemma AbutsSame(q: seq<Piece>, j: nat, r: seq<Piece>, k: nat)
    requires j + 1 < |q| && k + 1 < |r| && q[j] == r[k] && q[j + 1] == r[k + 1]
    ensures Abuts(q, j) == Abuts(r, k)
  {
  }

  lemma SplicedHole(q: seq<Piece>, i: nat, whole: seq<u8>)
    requires 0 < i < |q| - 1 && (forall p :: p in q ==> Of(p, whole))
    requires q[0].start == 0 && Checked(q, i) && q[i - 1].end < q[i].start
    ensures |Data(q)| < |whole|
  {
    hide Data, Of, Checked, Abuts;
    SplicedParts(q, i);
    DataAbut(q[..i], whole);
    DataAbut(q[i..], whole);
    DataJoin(q[..i], q[i..]);
    assert q[..i] + q[i..] == q;
  }

  lemma SplicedWhole(q: seq<Piece>, i: nat, whole: seq<u8>)
    requires i < |q| && (forall p :: p in q ==> Of(p, whole))
    requires q[0].start == 0 && Checked(q, i)
    requires 0 < i < |q| - 1 ==> q[i - 1].end <= q[i].start
    ensures Data(q) == whole <==>
            (i == 0 || i == |q| - 1 || q[i - 1].end == q[i].start) && q[|q| - 1].end == |whole|
  {
    hide Data, Of;
    if i == 0 || i == |q| - 1 || q[i - 1].end == q[i].start {
      forall j: nat | j + 1 < |q| ensures Abuts(q, j) {
        assert Unchecked(q, i, j) ==> j + 1 == i;
      }
      DataAbut(q, whole);
      OfIs(q[|q| - 1], whole);
    } else {
      hide Checked, Abuts;
      SplicedHole(q, i, whole);
    }
  }

  /** Fragments of one datagram, in any order, repeated and overlapping at will: when the code finds
      the datagram complete, it returns all of it if and only if the fragment at hand is at one end
      of the queue or abuts the piece before it, and the last piece ends where the last fragment
      seen said. */
  lemma WholeIff(g: Gram, n: Piece, whole: seq<u8>)
    requires Honest(g, whole) && Of(n, whole) && Done(g, n)
    ensures var q, i := Linked(g.queue, n), Pos(g.queue, n);
            Data(q) == whole <==>
            (i == 0 || i == |g.queue| || q[i - 1].end == n.start) && q[|q| - 1].end == g.len
  {
    hide Data, Of, Checked, Pos, Refused, Abuts, Unchecked;
    var q, i := Linked(g.queue, n), Pos(g.queue, n);
    assert q[i] == n;
    SplicedWhole(q, i, whole);
  }

  lemma HonestStep(g: Gram, n: Piece, mf: bool, whole: seq<u8>)
    requires Honest(g, whole) && Of(n, whole) && (!mf ==> n.end == |whole|)
    ensures Honest(Chain(Note(g, n, mf), n), whole)
  {
  }

  // ----- fragments of one cut, in any order, with repetitions

  /** The pieces of `f` tile `whole`. */
  ghost predicate IsCut(f: seq<Piece>, whole: seq<u8>) {
    && f != [] && f[0].start == 0 && f[|f| - 1].end == |whole|
    && (forall p :: p in f ==> Of(p, whole) && p.start < p.end)
    && (forall j: nat :: j + 1 < |f| ==> Abuts(f, j))
  }

  ghost predicate Increasing(idx: seq<nat>, n: nat) {
    (forall j :: 0 <= j < |idx| ==> idx[j] < n) && (forall j, k :: 0 <= j < k < |idx| ==> idx[j] < idx[k])
  }

  ghost function Pick(f: seq<Piece>, idx: seq<nat>): seq<Piece>
    requires Increasing(idx, |f|)
  {
    seq(|idx|, j requires 0 <= j < |idx| => f[idx[j]])
  }

  lemma {:induction false} CutOrder(f: seq<Piece>, whole: seq<u8>, j: nat, k: nat)
    requires IsCut(f, whole) && j < k < |f|
    ensures f[j].start < f[j].end <= f[k].start < f[k].end
    ensures f[j].end == f[k].start <==> k == j + 1
    decreases k - j
  {
    assert Abuts(f, k - 1) && f[k] in f && f[k - 1] in f && f[j] in f;
    if j + 1 < k {
      CutOrder(f, whole, j, k - 1);
    }
  }

  /** Where piece `k` goes in a queue of pieces of the same cut. */
  lemma PickPos(f: seq<Piece>, whole: seq<u8>, idx: seq<nat>, k: nat, i: nat)
    requires IsCut(f, whole) && Increasing(idx, |f|) && k < |f| && i == Pos(Pick(f, idx), f[k])
    ensures i <= |idx|
    ensures forall j :: 0 <= j < i ==> idx[j] < k
    ensures forall j :: i <= j < |idx| ==> k <= idx[j]
    ensures Refused(Pick(f, idx), f[k]) <==> k in idx
    ensures k in idx <==> i < |idx| && idx[i] == k
  {
    hide IsCut;
    var q := Pick(f, idx);
    forall j | 0 <= j < i ensures idx[j] < k {
      assert q[j] == f[idx[j]];
      if k < idx[j] {
        CutOrder(f, whole, k, idx[j]);
      }
    }
    if i < |idx| {
      assert q[i] == f[idx[i]];
      if idx[i] < k {
        CutOrder(f, whole, idx[i], k);
      } else if k < idx[i] {
        CutOrder(f, whole, k, idx[i]);
      }
    }
  }

  lemma PickLinked(f: seq<Piece>, idx: seq<nat>, k: nat, i: nat, idx': seq<nat>)
    requires Increasing(idx, |f|) && k < |f| && i == Pos(Pick(f, idx), f[k])
    requires forall j :: 0 <= j < i ==> idx[j] < k
    requires forall j :: i <= j < |idx| ==> k < idx[j]
    requires idx' == idx[..i] + [k] + idx[i..]
    ensures Increasing(idx', |f|) && Linked(Pick(f, idx), f[k]) == Pick(f, idx')
  {
    hide Pos;
  }

  /** Piece `k` comes before or after all seen so far, or right behind one of them. */
  ghost predicate Fits(seen: seq<nat>, k: nat) {
    (forall x :: x in seen ==> k < x) || (forall x :: x in seen ==> x < k) || (k > 0 && k - 1 in seen)
  }

  ghost predicate Full(seen: seq<nat>, n: nat) {
    forall x: nat :: x < n ==> x in seen
  }

  /** The queue holds exactly the pieces seen. */
  ghost predicate Holds(g: Gram, f: seq<Piece>, whole: seq<u8>, idx: seq<nat>, seen: seq<nat>) {
    && Increasing(idx, |f|) && g.queue == Pick(f, idx)
    && (forall x :: x in idx <==> x in seen)
    && (g.last <==> |f| - 1 in seen) && (g.last ==> g.len == |whole|)
  }

  lemma {:induction false} FullIncreasing(idx: seq<nat>, n: nat, j: nat)
    requires Increasing(idx, n) && Full(idx, n) && j <= |idx|
    ensures forall x: nat :: x < j ==> idx[x] == x
    ensures j == |idx| ==> j == n
    decreases j
  {
    if j > 0 {
      FullIncreasing(idx, n, j - 1);
      assert j >= 2 ==> idx[j - 2] < idx[j - 1];
      assert j - 1 <= idx[j - 1] < n;
      var x: nat := j - 1;
      assert x in idx;
      var y: nat :| y < |idx| && idx[y] == j - 1;
    }
    if j == |idx| && n > 0 {
      var last: nat := n - 1;
      assert last in idx;
      var y: nat :| y < |idx| && idx[y] == last;
    }
  }

  /** When all pieces are queued the code finds the datagram complete. */
  lemma FullDone(g: Gram, f: seq<Piece>, whole: seq<u8>, idx: seq<nat>, seen: seq<nat>, k: nat)
    requires IsCut(f, whole) && Holds(g, f, whole, idx, seen) && k < |f|
    requires k !in seen && Full(seen + [k], |f|)
    ensures Done(Note(g, f[k], k + 1 < |f|), f[k])
  {
    hide IsCut, Refused, Linked;
    var i := Pos(g.queue, f[k]);
    PickPos(f, whole, idx, k, i);
    assert |f| - 1 in seen + [k];
    var idx' := idx[..i] + [k] + idx[i..];
    PickLinked(f, idx, k, i, idx');
    forall x: nat | x < |f| ensures x in idx' {
      assert x in seen + [k];
      if x in idx {
        assert x in idx[..i] || x in idx[i..];
      }
    }
    FullIncreasing(idx', |f|, |idx'|);
    assert Pick(f, idx') == f;
    FullChecked(f, whole, i);
  }

  lemma FullChecked(f: seq<Piece>, whole: seq<u8>, i: nat)
    requires IsCut(f, whole)
    ensures f[0].start == 0 && Checked(f, i)
  {
  }

  lemma CutLast(f: seq<Piece>, whole: seq<u8>, k: nat)
    requires IsCut(f, whole) && k < |f|
    ensures Of(f[k], whole) && (k + 1 == |f| ==> f[k].end == |whole|)
  {
  }

  /** Otherwise a new piece keeps the queue in order, a known one changes nothing. */
  lemma HoldsStep(g: Gram, f: seq<Piece>, whole: seq<u8>, idx: seq<nat>, seen: seq<nat>, k: nat)
    returns (idx': seq<nat>)
    requires IsCut(f, whole) && Holds(g, f, whole, idx, seen) && k < |f|
    ensures Holds(Chain(Note(g, f[k], k + 1 < |f|), f[k]), f, whole, idx', seen + [k])
    ensures Done(Note(g, f[k], k + 1 < |f|), f[k]) ==> k !in seen && Linked(g.queue, f[k]) == Pick(f, idx')
  {
    hide Linked, IsCut, Refused, Checked, Increasing, Pick, Pos;
    var i := Pos(g.queue, f[k]);
    CutLast(f, whole, k);
    PickPos(f, whole, idx, k, i);
    if k in idx {
      idx' := idx;
    } else {
      idx' := idx[..i] + [k] + idx[i..];
      PickLinked(f, idx, k, i, idx');
      assert idx == idx[..i] + idx[i..];
      forall x ensures x in idx' <==> x in seen + [k] {
        assert x in idx <==> x in idx[..i] || x in idx[i..];
      }
    }
  }

  /** The completing piece, given what is queued before it. */
  lemma CompleteIff(g: Gram, f: seq<Piece>, whole: seq<u8>, idx: seq<nat>, seen: seq<nat>, k: nat)
    requires IsCut(f, whole) && Holds(g, f, whole, idx, seen) && k < |f|
    requires Done(Note(g, f[k], k + 1 < |f|), f[k])
    ensures Data(Linked(g.queue, f[k])) == whole <==> Fits(seen, k)
    ensures Note(g, f[k], k + 1 < |f|).len == |whole|
  {
    hide IsCut, Data, Linked, Checked;
    var i, n := Pos(g.queue, f[k]), Note(g, f[k], k + 1 < |f|);
    PickPos(f, whole, idx, k, i);
    var idx' := idx[..i] + [k] + idx[i..];
    PickLinked(f, idx, k, i, idx');
    HonestPick(f, whole, g, idx, k);
    WholeIff(n, f[k], whole);
    LastEnd(f, whole, idx', seen + [k], idx, i, k);
    if i > 0 {
      CutOrder(f, whole, idx[i - 1], k);
      assert idx[i - 1] in idx;
    }
    if i < |idx| {
      assert idx[i] in idx;
    }
    FitsIs(idx, seen, i, k);
  }

  lemma HonestPick(f: seq<Piece>, whole: seq<u8>, g: Gram, idx: seq<nat>, k: nat)
    requires IsCut(f, whole) && Increasing(idx, |f|) && g.queue == Pick(f, idx) && k < |f|
    requires g.last ==> g.len == |whole|
    ensures Honest(Note(g, f[k], k + 1 < |f|), whole) && Of(f[k], whole)
  {
    assert forall p :: p in g.queue ==> p in f;
  }

  lemma LastEnd(f: seq<Piece>, whole: seq<u8>, idx': seq<nat>, seen': seq<nat>, idx: seq<nat>, i: nat, k: nat)
    requires IsCut(f, whole) && Increasing(idx', |f|) && |f| - 1 in seen'
    requires i <= |idx| && idx' == idx[..i] + [k] + idx[i..]
    requires forall x :: x in seen' ==> x in idx || x == k
    ensures Pick(f, idx')[|idx'| - 1].end == |whole|
  {
    var last: nat := |f| - 1;
    assert idx == idx[..i] + idx[i..];
    assert last in idx';
    var j: nat :| j < |idx'| && idx'[j] == last;
    assert j == |idx'| - 1;
  }

  lemma FitsIs(idx: seq<nat>, seen: seq<nat>, i: nat, k: nat)
    requires i <= |idx| && (forall x :: x in idx <==> x in seen)
    requires forall j, l :: 0 <= j < l < |idx| ==> idx[j] < idx[l]
    requires forall j :: 0 <= j < i ==> idx[j] < k
    requires forall j :: i <= j < |idx| ==> k < idx[j]
    ensures Fits(seen, k) <==> i == 0 || i == |idx| || idx[i - 1] == k - 1
  {
    if 0 < i < |idx| {
      assert idx[0] in idx && idx[|idx| - 1] in idx && idx[i - 1] in idx;
      if k > 0 && k - 1 in idx {
        var j: nat :| j < |idx| && idx[j] == k - 1;
      }
    }
  }

  /** A datagram was found complete: by which arrival, with what payload, and the length noted. */
  datatype Completion = Completion(at: nat, data: seq<u8>, len: u16)

  /** Feed pieces of one cut, by number, until the code finds the datagram complete. */
  function Run(g: Gram, f: seq<Piece>, ks: seq<nat>): Option<Completion>
    requires forall k :: k in ks ==> k < |f|
    decreases |ks|
  {
    if ks == [] then None
    else
      assert ks[0] in ks && forall k :: k in ks[1..] ==> k in ks;
      var n := f[ks[0]];
      var g1 := Note(g, n, ks[0] + 1 < |f|);
      if Done(g1, n) then Some(Completion(0, Data(Linked(g.queue, n)), g1.len))
      else
        var r := Run(Chain(g1, n), f, ks[1..]);
        if r == None then None else Some(r.value.(at := r.value.at + 1))
  }

  lemma {:induction false} RunOk(g: Gram, f: seq<Piece>, whole: seq<u8>, idx: seq<nat>, seen: seq<nat>, ks: seq<nat>)
    requires IsCut(f, whole) && Holds(g, f, whole, idx, seen) && !Full(seen, |f|)
    requires forall k :: k in ks ==> k < |f|
    ensures Full(seen + ks, |f|) ==> Run(g, f, ks) != None
    ensures Run(g, f, ks) != None ==>
              var r := Run(g, f, ks).value;
              r.at < |ks| && r.len == |whole| && (r.data == whole <==> Fits(seen + ks[..r.at], ks[r.at]))
    decreases |ks|
  {
    hide IsCut, Done, Holds, Fits, Data, Linked, Chain;
    if ks == [] {
      assert seen + ks == seen;
      return;
    }
    assert ks[0] in ks && forall k :: k in ks[1..] ==> k in ks;
    var n := f[ks[0]];
    var g1 := Note(g, n, ks[0] + 1 < |f|);
    if Done(g1, n) {
      CompleteIff(g, f, whole, idx, seen, ks[0]);
      assert seen + ks[..0] == seen;
    } else {
      var idx' := HoldsStep(g, f, whole, idx, seen, ks[0]);
      if Full(seen + [ks[0]], |f|) {
        if ks[0] in seen {
          assert forall x: nat :: x in seen + [ks[0]] ==> x in seen;
        } else {
          FullDone(g, f, whole, idx, seen, ks[0]);
        }
      }
      RunOk(Chain(g1, n), f, whole, idx', seen + [ks[0]], ks[1..]);
      assert (seen + [ks[0]]) + ks[1..] == seen + ks;
      var r := Run(Chain(g1, n), f, ks[1..]);
      if r != None {
        assert (seen + [ks[0]]) + ks[1..][..r.value.at] == seen + ks[..r.value.at + 1];
      }
    }
  }

  /** Pieces of one cut arriving in any order, any number of times: once all have arrived a datagram
      has been returned; the length noted for it is right, and what was returned is the original if
      and only if the completing piece came before or after all pieces seen, or right behind one of
      them. */
  lemma Reassembles(f: seq<Piece>, whole: seq<u8>, ks: seq<nat>)
    requires IsCut(f, whole) && forall k :: k in ks ==> k < |f|
    ensures Full(ks, |f|) ==> Run(EMPTY, f, ks) != None
    ensures Run(EMPTY, f, ks) != None ==>
              var r := Run(EMPTY, f, ks).value;
              r.at < |ks| && r.len == |whole| && (r.data == whole <==> Fits(ks[..r.at], ks[r.at]))
  {
    assert !Full([], |f|) by {
      var zero: nat := 0;
      assert zero < |f| && zero !in [];
    }
    assert Holds(EMPTY, f, whole, [], []);
    RunOk(EMPTY, f, whole, [], [], ks);
    assert [] + ks == ks;
    if Run(EMPTY, f, ks) != None {
      var m := Run(EMPTY, f, ks).value.at;
      assert [] + ks[..m] == ks[..m];
    }
  }

  lemma HoleStates(f: seq<Piece>, whole: seq<u8>, g1: Gram, g2: Gram)
    requires IsCut(f, whole) && |f| == 4
    requires g1 == Gram([f[0]], false, 0) && g2 == Gram([f[0], f[3]], true, f[3].end)
    ensures Chain(Note(EMPTY, f[0], true), f[0]) == g1 && Chain(Note(g1, f[3], false), f[3]) == g2
    ensures !Done(Note(EMPTY, f[0], true), f[0]) && !Done(Note(g1, f[3], false), f[3]) && Done(g2, f[2])
  {
    hide IsCut;
    CutOrder(f, whole, 0, 2);
    CutOrder(f, whole, 0, 3);
    CutOrder(f, whole, 2, 3);
    assert Pos([f[0]], f[3]) == 1 && Linked([f[0]], f[3]) == [f[0], f[3]];
    assert Abuts([f[0], f[3]], 0) <==> f[0].end == f[3].start;
    assert Pos([f[0], f[3]], f[2]) == 1 && Linked([f[0], f[3]], f[2]) == [f[0], f[2], f[3]];
    assert Unchecked([f[0], f[2], f[3]], 1, 0);
    assert f[0] in f && f[0].start == 0 by { CutStart(f, whole); }
  }

  lemma CutStart(f: seq<Piece>, whole: seq<u8>)
    requires IsCut(f, whole)
    ensures f[0].start == 0
  {
  }

  /** Leaving out the second of four pieces: the code returns a datagram with a hole. */
  lemma HoleWitness(f: seq<Piece>, whole: seq<u8>)
    requires IsCut(f, whole) && |f| == 4
    ensures Run(EMPTY, f, [0, 3, 2]) != None && Run(EMPTY, f, [0, 3, 2]).value.data != whole
  {
    hide IsCut, Done, Chain, Note, Linked, Data;
    var ks: seq<nat> := [0, 3, 2];
    var g1, g2 := Gram([f[0]], false, 0), Gram([f[0], f[3]], true, f[3].end);
    HoleStates(f, whole, g1, g2);
    assert ks[1..] == [3, 2] && ks[1..][1..] == [2];
    assert Note(g2, f[2], true) == g2 by { NoteMore(g2, f[2]); }
    assert Run(g2, f, [2]) != None && Run(g2, f, [2]).value.at == 0;
    assert Run(g1, f, ks[1..]) != None && Run(g1, f, ks[1..]).value.at == 1;
    assert Run(EMPTY, f, ks) != None && Run(EMPTY, f, ks).value.at == 2;
    Reassembles(f, whole, ks);
    assert ks[..2] == [0, 3] && 0 in ks[..2] && 3 in ks[..2];
  }

  lemma NoteMore(g: Gram, n: Piece)
    ensures Note(g, n, true) == g
  {
  }

  /** With two different cuts of the same 24 bytes: a last fragment that is thrown away as a
      duplicate still marks the datagram as closed, and two thirds of it are returned. */
  lemma RefusedLastWitness(whole: seq<u8>)
    requires |whole| == 24
    ensures var a, b, c := Piece(8, 16, whole[8..16], 1), Piece(8, 24, whole[8..24], 1), Piece(0, 8, whole[..8], 1);
            var g := Chain(Note(Gram([a], false, 0), b, false), b);
            Refused([a], b) && Honest(g, whole) && Done(g, c) && |Data(Linked(g.queue, c))| == 16
  {
    var a, b, c := Piece(8, 16, whole[8..16], 1), Piece(8, 24, whole[8..24], 1), Piece(0, 8, whole[..8], 1);
    assert Pos([a], b) == 0 && Pos([a], c) == 0;
    assert Linked([a], c) == [c, a] && [c, a][1..] == [a] && [a][1..] == [];
    assert Abuts([c, a], 0);
    assert Data([c, a]) == c.data + Data([a]);
    assert Data([a]) == a.data + Data([]);
  }

  // ----- round trip with fragmentation

  /** `f` is how the fragments `fs` are queued; how many pbufs each came in does not matter. */
  ghost predicate Carries(f: seq<Piece>, fs: seq<Fragment>) {
    |f| == |fs| && forall j :: 0 <= j < |f| ==>
      f[j].start == fs[j].off * 8 && f[j].data == fs[j].data && f[j].end == f[j].start + |f[j].data|
  }

  lemma {:induction false} TilesCut(fs: seq<Fragment>, f: seq<Piece>, whole: seq<u8>, at: nat)
    requires at <= |whole| && Tiles(fs, at, |whole|, false) && Payload(fs) == whole[at..] && Carries(f, fs)
    ensures forall p :: p in f ==> Of(p, whole) && p.start < p.end
    ensures forall j: nat :: j + 1 < |f| ==> Abuts(f, j)
    ensures forall j :: 0 <= j < |f| ==> fs[j].mf == (j + 1 < |f|)
    ensures f != [] ==> f[0].start == at && f[|f| - 1].end == |whole|
    decreases |fs|
  {
    if f != [] {
      var next := at + |fs[0].data|;
      assert whole[at..] == fs[0].data + Payload(fs[1..]);
      assert whole[at..][..|fs[0].data|] == whole[at..next] && whole[at..][|fs[0].data|..] == whole[next..];
      TilesCut(fs[1..], f[1..], whole, next);
      forall p | p in f ensures Of(p, whole) && p.start < p.end {
        assert p == f[0] || p in f[1..];
      }
      forall j: nat | j + 1 < |f| ensures Abuts(f, j) {
        assert j > 0 ==> Abuts(f[1..], j - 1);
      }
      forall j | 0 <= j < |f| ensures fs[j].mf == (j + 1 < |f|) {
        assert j > 0 ==> fs[j] == fs[1..][j - 1];
      }
      assert |f| == 1 ==> fs[1..] == [];
    }
  }

  function InOrder(n: nat): seq<nat> {
    seq(n, i => i)
  }

  function Reversed(n: nat): seq<nat> {
    seq(n, i requires 0 <= i < n => n - 1 - i)
  }

  /** The original datagram was found complete, with its length. */
  predicate Returned(r: Option<Completion>, whole: seq<u8>) {
    r != None && r.value.data == whole && r.value.len == |whole|
  }

  /** Pieces arriving first to last, or last to first, give the datagram back. */
  lemma Ordered(f: seq<Piece>, whole: seq<u8>)
    requires IsCut(f, whole)
    ensures Returned(Run(EMPTY, f, InOrder(|f|)), whole)
    ensures Returned(Run(EMPTY, f, Reversed(|f|)), whole)
  {
    hide Run, IsCut, Fits;
    var up, down := InOrder(|f|), Reversed(|f|);
    forall x: nat | x < |f| ensures x in up && x in down {
      assert up[x] == x && down[|f| - 1 - x] == x;
    }
    Reassembles(f, whole, up);
    Reassembles(f, whole, down);
    FitsMonotone(up, Run(EMPTY, f, up).value.at);
    FitsMonotone(down, Run(EMPTY, f, down).value.at);
  }

  /** Any payload that fits a datagram, fragmented for any MTU and fed back in order or in reverse,
      comes out unchanged. */
  lemma RoundTrip(payload: seq<u8>, mtu: nat, f: seq<Piece>)
    requires mtu >= 28 && 0 < |payload| < 0x1_0000 && Carries(f, Fragments(payload, mtu, 0, false))
    ensures Returned(Run(EMPTY, f, InOrder(|f|)), payload)
    ensures Returned(Run(EMPTY, f, Reversed(|f|)), payload)
    ensures forall j :: 0 <= j < |f| ==> Fragments(payload, mtu, 0, false)[j].mf == (j + 1 < |f|)
  {
    hide Tiles, Fragments, Payload, Run, IsCut;
    var fs := Fragments(payload, mtu, 0, false);
    FragmentsOk(payload, mtu, 0, false);
    assert payload[0..] == payload;
    TilesCut(fs, f, payload, 0);
    NotNothing(payload, mtu);
    CutIs(f, payload);
    Ordered(f, payload);
  }

  lemma CutIs(f: seq<Piece>, whole: seq<u8>)
    requires f != [] && f[0].start == 0 && f[|f| - 1].end == |whole|
    requires (forall p :: p in f ==> Of(p, whole) && p.start < p.end)
    requires (forall j: nat :: j + 1 < |f| ==> Abuts(f, j))
    ensures IsCut(f, whole)
  {
  }

  lemma NotNothing(payload: seq<u8>, mtu: nat)
    requires mtu >= 28 && payload != []
    ensures Fragments(payload, mtu, 0, false) != []
  {
  }

  lemma FitsMonotone(ks: seq<nat>, m: nat)
    requires m < |ks|
    requires (forall i, j :: 0 <= i < j < |ks| ==> ks[i] < ks[j]) || (forall i, j :: 0 <= i < j < |ks| ==> ks[j] < ks[i])
    ensures Fits(ks[..m], ks[m])
  {
  }
}
