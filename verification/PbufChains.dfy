/**
 Chains of reference-counted pbufs (pbuf.c): memory as a map from addresses, what it takes for a
 chain in it to be in order, and the walks along a chain.
 */
module PbufChains {
  import opened Basics

  /** Addresses; 0 is NULL. */
  type Ptr = nat

  datatype Kind = Ram | Rom | Ref | Pool

  /** struct pbuf; `payload` are its `len` bytes, `room` the bytes of the buffer before them. */
  datatype Pbuf = Pbuf(next: Ptr, payload: seq<u8>, totLen: nat, ref: nat, kind: Kind, room: seq<u8>)

  type Memory = map<Ptr, Pbuf>

  /** External holders: an address once for every pointer held to it. */
  type Holders = multiset<Ptr>

  // ----- chains

  /** What comes behind a stretch of a chain: the next address, and the bytes from there on. */
  datatype End = End(at: Ptr, total: nat)

  const NIL: End := End(0, 0)

  function Head(c: seq<Ptr>, at: Ptr): Ptr {
    if c == [] then at else c[0]
  }

  function Total(mem: Memory, c: seq<Ptr>, total: nat): nat {
    if c == [] || c[0] !in mem then total else mem[c[0]].totLen
  }

  /** The pbufs `c` are linked in this order up to `end`, each address once; tot_len counts the
      bytes of a pbuf and of all behind it; the reference count is the number of holders, plus one
      if a pbuf is linked to. */
  ghost predicate Seg(mem: Memory, held: Holders, c: seq<Ptr>, linked: bool, end: End)
    decreases |c|
  {
    c == [] ||
    var p := c[0];
    && p != 0 && p in mem && p !in c[1..]
    && mem[p].next == Head(c[1..], end.at)
    && mem[p].totLen == |mem[p].payload| + Total(mem, c[1..], end.total)
    && mem[p].ref == held[p] + (if linked then 1 else 0) > 0
    && Seg(mem, held, c[1..], true, end)
  }

  /** A whole chain; its first pbuf has no predecessor. */
  ghost predicate ChainOk(mem: Memory, held: Holders, c: seq<Ptr>) {
    c != [] && Seg(mem, held, c, false, NIL)
  }

  /** The bytes of a chain. */
  ghost function Data(mem: Memory, c: seq<Ptr>): seq<u8>
    decreases |c|
  {
    if c == [] || c[0] !in mem then [] else mem[c[0]].payload + Data(mem, c[1..])
  }

  lemma {:induction false} SegIn(mem: Memory, held: Holders, c: seq<Ptr>, linked: bool, end: End)
    requires Seg(mem, held, c, linked, end)
    ensures forall x :: x in c ==> x in mem && x != 0
    ensures forall i, j :: 0 <= i < j < |c| ==> c[i] != c[j]
    decreases |c|
  {
    if c != [] {
      SegIn(mem, held, c[1..], true, end);
      assert c == [c[0]] + c[1..];
    }
  }

  /** A stretch is not affected by what happens to other pbufs. */
  lemma {:induction false} SegFrame(mem: Memory, held: Holders, mem': Memory, held': Holders, c: seq<Ptr>, linked: bool, end: End)
    requires Seg(mem, held, c, linked, end)
    requires forall x :: x in c && x in mem ==> x in mem' && mem'[x] == mem[x] && held'[x] == held[x]
    ensures Seg(mem', held', c, linked, end)
    ensures Data(mem', c) == Data(mem, c) && forall t :: Total(mem', c, t) == Total(mem, c, t)
    decreases |c|
  {
    if c != [] {
      assert c[0] in c && forall x :: x in c[1..] ==> x in c;
      SegFrame(mem, held, mem', held', c[1..], true, end);
    }
  }

  ghost predicate Apart(c: seq<Ptr>, d: seq<Ptr>) {
    forall x :: x in c ==> x !in d
  }

  /** Two stretches in a row. */
  lemma {:induction false} SegJoin(mem: Memory, held: Holders, c: seq<Ptr>, d: seq<Ptr>, linked: bool, end: End)
    requires forall x :: x in d ==> x in mem
    ensures Seg(mem, held, c + d, linked, end) <==>
            && Seg(mem, held, c, linked, End(Head(d, end.at), Total(mem, d, end.total)))
            && Seg(mem, held, d, linked || c != [], end) && Apart(c, d)
    ensures (forall x :: x in c ==> x in mem) ==> Data(mem, c + d) == Data(mem, c) + Data(mem, d)
    decreases |c|
  {
    if c == [] {
      assert c + d == d;
    } else {
      SegJoin(mem, held, c[1..], d, true, end);
      assert (c + d)[1..] == c[1..] + d;
      assert c[0] in c && forall x :: x in c <==> x == c[0] || x in c[1..];
    }
  }

  /** tot_len of the first pbuf is the number of bytes of the chain. */
  lemma {:induction false} TotalIsLength(mem: Memory, held: Holders, c: seq<Ptr>, linked: bool, end: End)
    requires Seg(mem, held, c, linked, end)
    ensures Total(mem, c, end.total) == |Data(mem, c)| + end.total
    decreases |c|
  {
    if c != [] {
      TotalIsLength(mem, held, c[1..], true, end);
    }
  }

  // ----- giving up a reference

  /** How many pbufs at the head of a chain nobody holds. */
  function Run(held: Holders, c: seq<Ptr>): (n: nat)
    ensures n <= |c| && (n < |c| ==> held[c[n]] > 0)
    ensures forall i :: 0 <= i < n ==> held[c[i]] == 0
  {
    if c == [] || held[c[0]] > 0 then 0 else 1 + Run(held, c[1..])
  }

  /** Pbufs `gone` were released; nothing outside `c` changed, nothing but counts in it. */
  ghost predicate Released(mem: Memory, mem': Memory, gone: seq<Ptr>, c: seq<Ptr>) {
    && (forall x :: x in mem' <==> x in mem && x !in gone)
    && (forall x :: x in mem' ==> mem'[x] == mem[x].(ref := mem'[x].ref) && (x !in c ==> mem'[x] == mem[x]))
  }

  /** The loop of pbuf_free along a chain whose pbufs all have one reference besides their holders:
      for the first the one given up, for the others the link. The totals may count `over` bytes too
      many, as in a chain that could not be allocated in full. */
  method FreeWalk(mem0: Memory, p0: Ptr, ghost c: seq<Ptr>, ghost held: Holders, ghost over: nat := 0)
    returns (mem: Memory, count: nat)
    requires Seg(mem0, held, c, true, End(0, over)) && p0 == Head(c, 0)
    ensures count == Run(held, c) && Released(mem0, mem, c[..count], c)
    ensures Seg(mem, held, c[count..], false, End(0, over))
  {
    hide Released;
    var p := p0;
    mem, count := mem0, 0;
    ghost var rest := c;
    ReleasedStart(mem0, c);
    while p != 0
      invariant count <= |c| && rest == c[count..] && p == Head(rest, 0)
      invariant Run(held, c) == count + Run(held, rest)
      invariant Seg(mem, held, rest, true, End(0, over)) && Released(mem0, mem, c[..count], c)
      decreases |rest|
    {
      assert rest != [] && p == rest[0] == c[count] && rest[1..] == c[count + 1..];
      ghost var before := mem;
      ReleasedStep(mem0, mem, c, count);
      mem := mem[p := mem[p].(ref := mem[p].ref - 1)];
      if mem[p].ref == 0 {
        var q := mem[p].next;
        mem := mem - {p};
        SegFrame(before, held, mem, held, rest[1..], true, End(0, over));
        rest := rest[1..];
        count := count + 1;
        p := q;
      } else {
        SegFrame(before, held, mem, held, rest[1..], true, End(0, over));
        return;
      }
    }
    assert rest == [] by { SegIn(mem, held, rest, true, End(0, over)); }
  }

  lemma ReleasedStart(mem: Memory, c: seq<Ptr>)
    ensures Released(mem, mem, c[..0], c)
  {
  }

  lemma ReleasedStep(mem: Memory, mem': Memory, c: seq<Ptr>, n: nat)
    requires n < |c| && c[n] in mem' && Released(mem, mem', c[..n], c)
    ensures forall r: nat :: Released(mem, mem'[c[n] := mem'[c[n]].(ref := r)], c[..n], c)
    ensures forall r: nat :: Released(mem, mem'[c[n] := mem'[c[n]].(ref := r)] - {c[n]}, c[..n + 1], c)
  {
    assert c[..n + 1] == c[..n] + [c[n]];
  }

  /** `mem'` differs from `mem` in pbufs of `c` only, and there not in their bytes. */
  ghost predicate Touched(mem: Memory, mem': Memory, c: seq<Ptr>) {
    && (forall x :: x in mem' <==> x in mem)
    && (forall x :: x in mem ==> mem'[x].payload == mem[x].payload && (x !in c ==> mem'[x] == mem[x]))
  }

  lemma {:induction false} DataSame(mem: Memory, mem': Memory, c: seq<Ptr>)
    requires forall x :: x in c ==> (x in mem <==> x in mem') && (x in mem ==> mem'[x].payload == mem[x].payload)
    ensures Data(mem', c) == Data(mem, c)
    decreases |c|
  {
    if c != [] {
      assert c[0] in c;
      DataSame(mem, mem', c[1..]);
    }
  }

  /** One step of a walk that changes totals: behind `done`, whose last pbuf is followed by
      `end.total` bytes now, pbuf `p` gets its total changed to just that. */
  lemma SegStep(mem: Memory, held: Holders, done: seq<Ptr>, rest: seq<Ptr>, total: nat, behind: nat)
    requires rest != [] && Seg(mem, held, rest, done != [], NIL) && Apart(done, rest)
    requires Seg(mem, held, done, false, End(rest[0], total))
    requires rest[0] in mem && total == |mem[rest[0]].payload| + behind
    ensures var p := rest[0];
            var mem' := mem[p := mem[p].(totLen := total)];
            && Seg(mem', held, done + [p], false, End(Head(rest[1..], 0), behind))
            && Seg(mem', held, rest[1..], true, NIL) && Apart(done + [p], rest[1..])
            && Total(mem', rest[1..], 0) == Total(mem, rest[1..], 0)
            && mem[p].totLen == |mem[p].payload| + Total(mem, rest[1..], 0)
            && mem[p].next == Head(rest[1..], 0) && p !in done
  {
    var p := rest[0];
    var mem' := mem[p := mem[p].(totLen := total)];
    var e := End(Head(rest[1..], 0), behind);
    assert p in rest && p !in done;
    SegFrame(mem, held, mem', held, done, false, End(p, total));
    SegFrame(mem, held, mem', held, rest[1..], true, NIL);
    SegOne(mem', held, p, done != [], e);
    SegJoin(mem', held, done, [p], false, e);
    assert forall x :: x in rest[1..] ==> x in rest;
  }

  lemma SegOne(mem: Memory, held: Holders, p: Ptr, linked: bool, end: End)
    requires p != 0 && p in mem && mem[p].next == end.at && mem[p].totLen == |mem[p].payload| + end.total
    requires mem[p].ref == held[p] + (if linked then 1 else 0) > 0
    ensures Seg(mem, held, [p], linked, end)
  {
    assert [p][1..] == [];
  }

  /** A walk over `c`, with `done` behind it: the totals there are right if `total` bytes follow. */
  ghost predicate Walking(mem0: Memory, mem: Memory, held: Holders, c: seq<Ptr>, done: seq<Ptr>, rest: seq<Ptr>, total: nat) {
    && rest != [] && c == done + rest && Apart(done, rest)
    && Seg(mem, held, rest, done != [], NIL) && Seg(mem, held, done, false, End(rest[0], total))
    && Touched(mem0, mem, c)
  }

  lemma WalkStep(mem0: Memory, mem: Memory, held: Holders, c: seq<Ptr>, done: seq<Ptr>, rest: seq<Ptr>, total: nat, behind: nat)
    requires Walking(mem0, mem, held, c, done, rest, total) && |rest| > 1
    requires rest[0] in mem && total == |mem[rest[0]].payload| + behind
    ensures var mem' := mem[rest[0] := mem[rest[0]].(totLen := total)];
            Walking(mem0, mem', held, c, done + [rest[0]], rest[1..], behind)
  {
    hide Seg, Touched;
    var p := rest[0];
    RestIn(mem, held, rest, done != []);
    SegStep(mem, held, done, rest, total, behind);
    TouchedStep(mem0, mem, c, p, mem[p].(totLen := total));
    assert c == (done + [p]) + rest[1..];
  }

  lemma WalkAt(mem0: Memory, mem: Memory, held: Holders, c: seq<Ptr>, done: seq<Ptr>, rest: seq<Ptr>, total: nat)
    requires Walking(mem0, mem, held, c, done, rest, total)
    ensures rest != []
    ensures var p := rest[0];
            && p in mem && mem[p].next == Head(rest[1..], 0) && p in c
            && p in mem0 && mem0[p].payload == mem[p].payload
            && mem[p].totLen == |mem[p].payload| + Total(mem, rest[1..], 0)
            && (|rest| > 1 <==> mem[p].next != 0)
            && (|rest| > 1 ==> p !in rest[1..] && rest[1] in mem && rest[1] == rest[1..][0])
    ensures forall x :: x in mem && x !in c ==> x in mem0 && mem[x] == mem0[x]
    ensures forall x :: x in mem0 && x !in c ==> x in mem
  {
    RestIn(mem, held, rest, done != []);
    SegIn(mem, held, rest, done != [], NIL);
  }

  lemma CatStart(mem: Memory, held: Holders, c: seq<Ptr>, total: nat)
    requires c != [] && Seg(mem, held, c, false, NIL)
    ensures c[0] in mem && Walking(mem, mem, held, c, [], c, total)
  {
    WalkStart(mem, held, c, total);
  }

  lemma CatStep(mem0: Memory, mem: Memory, held: Holders, c: seq<Ptr>, done: seq<Ptr>, rest: seq<Ptr>, t: Ptr, tt: nat)
    requires rest != [] && Walking(mem0, mem, held, c, done, rest, Total(mem, rest, 0) + tt)
    requires rest[0] in mem && mem[rest[0]].next != 0 && t !in c
    ensures var p := rest[0];
            var mem' := mem[p := mem[p].(totLen := mem[p].totLen + tt)];
            && |rest| > 1 && mem'[p].next == rest[1] == rest[1..][0] && rest[1] in mem' && p != t
            && Walking(mem0, mem', held, c, done + [p], rest[1..], Total(mem', rest[1..], 0) + tt)
  {
    hide Walking;
    WalkAt(mem0, mem, held, c, done, rest, Total(mem, rest, 0) + tt);
    WalkStep(mem0, mem, held, c, done, rest, mem[rest[0]].totLen + tt, Total(mem, rest[1..], 0) + tt);
  }

  /** The loop of pbuf_cat, up to the last pbuf. */
  method CatLoop(mem0: Memory, h: Ptr, t: Ptr, ghost c: seq<Ptr>, ghost held: Holders)
    returns (mem: Memory, p: Ptr, ghost done: seq<Ptr>)
    requires c != [] && Seg(mem0, held, c, false, NIL) && h == c[0] && t in mem0 && t !in c
    ensures p in mem && t in mem && mem[t] == mem0[t]
    ensures Walking(mem0, mem, held, c, done, [p], mem[p].totLen + mem0[t].totLen)
  {
    hide Seg, Apart, Touched, Walking, Total, Head;
    mem, p, done := mem0, h, [];
    ghost var rest := c;
    CatStart(mem0, held, c, Total(mem0, c, 0) + mem0[t].totLen);
    while mem[p].next != 0
      invariant rest != [] && p == rest[0] && p in mem && t in mem && mem[t] == mem0[t]
      invariant Walking(mem0, mem, held, c, done, rest, Total(mem, rest, 0) + mem0[t].totLen)
      decreases |rest|
    {
      CatStep(mem0, mem, held, c, done, rest, t, mem0[t].totLen);
      mem := mem[p := mem[p].(totLen := mem[p].totLen + mem[t].totLen)];
      done, rest := done + [p], rest[1..];
      p := mem[p].next;
    }
    LoopEnd(mem0, mem, held, c, done, rest, mem0[t].totLen);
  }

  lemma LoopEnd(mem0: Memory, mem: Memory, held: Holders, c: seq<Ptr>, done: seq<Ptr>, rest: seq<Ptr>, tt: nat)
    requires rest != [] && Walking(mem0, mem, held, c, done, rest, Total(mem, rest, 0) + tt)
    requires rest[0] in mem && mem[rest[0]].next == 0
    ensures rest == [rest[0]] && Walking(mem0, mem, held, c, done, rest, mem[rest[0]].totLen + tt)
  {
    hide Walking;
    WalkAt(mem0, mem, held, c, done, rest, Total(mem, rest, 0) + tt);
  }

  /** pbuf_cat: count the bytes of `t` in every pbuf, and link the last one to it. */
  method CatWalk(mem0: Memory, h: Ptr, t: Ptr, ghost c: seq<Ptr>, ghost held: Holders) returns (mem: Memory)
    requires c != [] && Seg(mem0, held, c, false, NIL) && h == c[0] && t in mem0 && t !in c
    ensures Seg(mem, held, c, false, End(t, mem0[t].totLen)) && Touched(mem0, mem, c)
  {
    hide Seg, Apart, Touched, Walking;
    var p;
    ghost var done;
    mem, p, done := CatLoop(mem0, h, t, c, held);
    WalkLink(mem0, mem, held, c, done, [p], t, mem0[t].totLen);
    mem := mem[p := mem[p].(totLen := mem[p].totLen + mem[t].totLen, next := t)];
  }

  lemma WalkLink(mem0: Memory, mem: Memory, held: Holders, c: seq<Ptr>, done: seq<Ptr>, rest: seq<Ptr>, t: Ptr, tt: nat)
    requires Walking(mem0, mem, held, c, done, rest, Total(mem, rest, 0) + tt) && |rest| == 1 && rest[0] in mem
    ensures var p := rest[0];
            var mem' := mem[p := mem[p].(totLen := mem[p].totLen + tt, next := t)];
            Seg(mem', held, c, false, End(t, tt)) && Touched(mem0, mem', c)
  {
    hide Seg, Touched, Apart;
    var p := rest[0];
    RestIn(mem, held, rest, done != []);
    SegStep(mem, held, done, rest, mem[p].totLen + tt, tt);
    TouchedStep(mem0, mem, c, p, mem[p].(totLen := mem[p].totLen + tt, next := t));
    SegLink(mem, held, done, p, mem[p].totLen + tt, t, tt);
    assert c == done + [p];
  }

  lemma WalkStart(mem: Memory, held: Holders, c: seq<Ptr>, total: nat)
    requires c != [] && Seg(mem, held, c, false, NIL)
    ensures Walking(mem, mem, held, c, [], c, total)
  {
  }

  lemma RestIn(mem: Memory, held: Holders, rest: seq<Ptr>, linked: bool)
    requires rest != [] && Seg(mem, held, rest, linked, NIL)
    ensures rest[0] in mem && mem[rest[0]].next == Head(rest[1..], 0)
    ensures mem[rest[0]].totLen == |mem[rest[0]].payload| + Total(mem, rest[1..], 0)
    ensures |rest| > 1 <==> mem[rest[0]].next != 0
    ensures |rest| > 1 ==> rest[1] in mem && rest[1..] != [] && rest[1] == rest[1..][0]
    ensures |rest| == 1 ==> rest == [rest[0]] && rest[1..] == []
  {
    SegIn(mem, held, rest, linked, NIL);
  }

  lemma TouchedStep(mem: Memory, mem': Memory, c: seq<Ptr>, p: Ptr, b: Pbuf)
    requires Touched(mem, mem', c) && p in c && p in mem' && b.payload == mem'[p].payload
    ensures Touched(mem, mem'[p := b], c)
  {
  }

  /** Linking the last pbuf to `t` once its total counts the bytes there. */
  lemma SegLink(mem: Memory, held: Holders, done: seq<Ptr>, p: Ptr, total: nat, t: Ptr, tt: nat)
    requires p in mem && total == |mem[p].payload| + tt && p !in done
    requires Seg(mem[p := mem[p].(totLen := total)], held, done + [p], false, End(0, tt))
    ensures Seg(mem[p := mem[p].(totLen := total, next := t)], held, done + [p], false, End(t, tt))
  {
    var m, m' := mem[p := mem[p].(totLen := total)], mem[p := mem[p].(totLen := total, next := t)];
    SegJoin(m, held, done, [p], false, End(0, tt));
    SegFrame(m, held, m', held, done, false, End(p, total));
    SegOne(m', held, p, done != [], End(t, tt));
    SegJoin(m', held, done, [p], false, End(t, tt));
  }

  // ----- chains of pool buffers

  /** The payload lengths of a pool allocation: the first buffer has room for `room` bytes. */
  function Lens(length: nat, room: nat, bufsize: nat): (r: seq<nat>)
    requires room > 0 && bufsize > 0
    ensures r != []
    decreases length
  {
    if length <= room then [length] else [room] + Lens(length - room, bufsize, bufsize)
  }

  /** What the pool hands out: distinct addresses not in use, with whatever is in the buffers. */
  ghost predicate Supply(mem: Memory, held: Holders, supply: seq<Ptr>, raw: seq<seq<u8>>, bufsize: nat) {
    && |raw| == |supply| && (forall i :: 0 <= i < |raw| ==> |raw[i]| == bufsize)
    && (forall i, j :: 0 <= i < j < |supply| ==> supply[i] != supply[j])
    && (forall x :: x in supply ==> x != 0 && x !in mem && held[x] == 0)
  }

  /** The first `n` buffers are linked, with the lengths wanted; `rem` bytes are still to come. */
  ghost predicate Pooled(mem0: Memory, mem: Memory, held: Holders, supply: seq<Ptr>, lens: seq<nat>, n: nat, rem: nat) {
    && 0 < n <= |supply| && n <= |lens|
    && Seg(mem, held + multiset{supply[0]}, supply[..n], false, End(0, rem))
    && (forall x :: x in mem <==> x in mem0 || x in supply[..n])
    && (forall x :: x in mem0 ==> mem[x] == mem0[x])
    && (forall i :: 0 <= i < n ==> supply[i] in mem && |mem[supply[i]].payload| == lens[i] && mem[supply[i]].kind == Pool)
  }

  /** The allocation loop of pbuf_alloc for PBUF_POOL. */
  method PoolLoop(mem0: Memory, supply: seq<Ptr>, raw: seq<seq<u8>>, offset: nat, length: nat, bufsize: nat, ghost held: Holders)
    returns (mem: Memory, n: nat, rem: nat)
    requires supply != [] && offset < bufsize && Supply(mem0, held, supply, raw, bufsize)
    ensures n > 0 && Pooled(mem0, mem, held, supply, Lens(length, bufsize - offset, bufsize), n, rem)
    ensures rem == 0 <==> |Lens(length, bufsize - offset, bufsize)| <= |supply|
    ensures rem == 0 ==> n == |Lens(length, bufsize - offset, bufsize)|
    ensures |raw| > 0 && offset <= |raw[0]| && supply[0] in mem
    ensures mem[supply[0]].room == raw[0][..offset] && mem[supply[0]].totLen == length
  {
    hide Seg, Pooled, Lens;
    ghost var lens := Lens(length, bufsize - offset, bufsize);
    var p := supply[0];
    var len := if length <= bufsize - offset then length else bufsize - offset;
    SupplyAt(mem0, held, supply, raw, bufsize, 0);
    mem := mem0[p := Pbuf(0, raw[0][offset..offset + len], length, 1, Pool, raw[0][..offset])];
    n, rem := 1, length - len;
    LensHead(length, bufsize - offset, bufsize);
    PooledFirst(mem0, held, supply, raw, bufsize, offset, length, lens);
    while rem > 0 && n < |supply|
      invariant 0 < n <= |supply| && Pooled(mem0, mem, held, supply, lens, n, rem)
      invariant n <= |lens| && lens[n..] == if rem == 0 then [] else Lens(rem, bufsize, bufsize)
      invariant p in mem && mem[p].room == raw[0][..offset] && mem[p].totLen == length
    {
      var q, r := supply[n], supply[n - 1];
      len := if rem <= bufsize then rem else bufsize;
      SupplyAt(mem0, held, supply, raw, bufsize, n);
      SupplyAt(mem0, held, supply, raw, bufsize, n - 1);
      LensHead(rem, bufsize, bufsize);
      PooledNext(mem0, mem, held, supply, lens, n, rem, Pbuf(0, raw[n][..len], rem, 1, Pool, []));
      assert lens[n..][0] == lens[n] && lens[n..][1..] == lens[n + 1..];
      mem := mem[q := Pbuf(0, raw[n][..len], rem, 1, Pool, [])];
      mem := mem[r := mem[r].(next := q)];
      n, rem := n + 1, rem - len;
    }
    if rem > 0 {
      LensHead(rem, bufsize, bufsize);
    }
  }

  lemma LensHead(length: nat, room: nat, bufsize: nat)
    requires room > 0 && bufsize > 0
    ensures var r := Lens(length, room, bufsize);
            && r[0] == (if length <= room then length else room)
            && r[1..] == if length <= room then [] else Lens(length - room, bufsize, bufsize)
  {
  }

  lemma SupplyAt(mem: Memory, held: Holders, supply: seq<Ptr>, raw: seq<seq<u8>>, bufsize: nat, i: nat)
    requires Supply(mem, held, supply, raw, bufsize) && i < |supply|
    ensures supply[i] != 0 && supply[i] !in mem && held[supply[i]] == 0 && |raw| == |supply| && |raw[i]| == bufsize
    ensures supply[i] !in supply[..i]
  {
  }

  lemma PooledFirst(mem0: Memory, held: Holders, supply: seq<Ptr>, raw: seq<seq<u8>>, bufsize: nat, offset: nat, length: nat, lens: seq<nat>)
    requires supply != [] && offset < bufsize && Supply(mem0, held, supply, raw, bufsize) && lens != []
    requires lens[0] == if length <= bufsize - offset then length else bufsize - offset
    ensures lens[0] <= length && |raw| > 0 && offset + lens[0] <= |raw[0]|
    ensures var b := Pbuf(0, raw[0][offset..offset + lens[0]], length, 1, Pool, raw[0][..offset]);
            Pooled(mem0, mem0[supply[0] := b], held, supply, lens, 1, length - lens[0])
  {
    var p := supply[0];
    var b := Pbuf(0, raw[0][offset..offset + lens[0]], length, 1, Pool, raw[0][..offset]);
    assert supply[..1] == [p];
    assert p in supply;
    SegOne(mem0[p := b], held + multiset{p}, p, false, End(0, length - lens[0]));
  }

  lemma PooledNext(mem0: Memory, mem: Memory, held: Holders, supply: seq<Ptr>, lens: seq<nat>, n: nat, rem: nat, b: Pbuf)
    requires 0 < n < |supply| && n < |lens| && Pooled(mem0, mem, held, supply, lens, n, rem)
    requires supply[n] !in supply[..n] && supply[n] != 0 && supply[n] !in mem0 && held[supply[n]] == 0
    requires supply[n - 1] !in mem0
    requires b.next == 0 && b.ref == 1 && b.kind == Pool && |b.payload| == lens[n] <= rem == b.totLen
    ensures supply[n - 1] in mem && supply[n] != supply[n - 1]
    ensures var q, r := supply[n], supply[n - 1];
            Pooled(mem0, mem[q := b][r := mem[r].(next := q)], held, supply, lens, n + 1, rem - lens[n])
    ensures supply[0] in mem && supply[0] != supply[n]
  {
    hide Seg;
    var q, r := supply[n], supply[n - 1];
    assert r == supply[..n][n - 1] && supply[0] == supply[..n][0];
    PooledSeg(mem, held + multiset{supply[0]}, supply, n, rem, b, lens[n]);
    assert supply[..n + 1] == supply[..n] + [q];
    assert forall i :: 0 <= i < n ==> supply[i] == supply[..n][i] && supply[i] != q;
  }

  lemma PooledSeg(mem: Memory, held: Holders, supply: seq<Ptr>, n: nat, rem: nat, b: Pbuf, len: nat)
    requires 0 < n < |supply| && Seg(mem, held, supply[..n], false, End(0, rem)) && supply[n - 1] in mem
    requires supply[n] !in supply[..n] && supply[n] != 0 && held[supply[n]] == 0
    requires b.next == 0 && b.ref == 1 && |b.payload| == len <= rem == b.totLen
    ensures var q, r := supply[n], supply[n - 1];
            Seg(mem[q := b][r := mem[r].(next := q)], held, supply[..n + 1], false, End(0, rem - len))
  {
    hide Seg;
    var q, r, done := supply[n], supply[n - 1], supply[..n - 1];
    assert supply[..n] == done + [r] && supply[..n + 1] == supply[..n] + [q];
    var m := mem[q := b];
    var m' := m[r := m[r].(next := q)];
    SegFrame(mem, held, m, held, supply[..n], false, End(0, rem));
    SegIn(mem, held, supply[..n], false, End(0, rem));
    assert r !in done by {
      assert supply[..n][n - 1] == r;
      assert forall i :: 0 <= i < n - 1 ==> done[i] == supply[..n][i];
    }
    PoolLink(m, held, done, r, q, rem);
    SegOne(m', held, q, true, End(0, rem - len));
    SegJoin(m', held, supply[..n], [q], false, End(0, rem - len));
  }

  lemma PoolLink(mem: Memory, held: Holders, done: seq<Ptr>, r: Ptr, q: Ptr, rem: nat)
    requires Seg(mem, held, done + [r], false, End(0, rem)) && r in mem && r !in done
    ensures Seg(mem[r := mem[r].(next := q)], held, done + [r], false, End(q, rem))
  {
    SegJoin(mem, held, done, [r], false, End(0, rem));
    assert mem[r := mem[r].(totLen := mem[r].totLen)] == mem;
    SegLink(mem, held, done, r, mem[r].totLen, q, rem);
    assert mem[r].(totLen := mem[r].totLen, next := q) == mem[r].(next := q);
  }

  // ----- cutting a chain short

  /** How many pbufs it takes to hold the first `len` bytes of a chain, at least one. */
  ghost function Keep(mem: Memory, c: seq<Ptr>, len: nat): (k: nat)
    ensures k <= |c| && (c != [] ==> k > 0)
    decreases |c|
  {
    if c == [] then 0
    else if c[0] !in mem || len <= |mem[c[0]].payload| then 1
    else 1 + Keep(mem, c[1..], len - |mem[c[0]].payload|)
  }

  /** No pbuf more than needed is kept: the first ones but the last of them hold less than `len` bytes, all
      of them hold that many, as far as there are any. */
  lemma {:induction false} KeepLeast(mem: Memory, c: seq<Ptr>, len: nat)
    requires forall x :: x in c ==> x in mem
    ensures var k := Keep(mem, c, len);
            && (k > 1 ==> |Data(mem, c[..k - 1])| < len)
            && (len <= |Data(mem, c)| ==> len <= |Data(mem, c[..k])|)
    decreases |c|
  {
    var k := Keep(mem, c, len);
    if c != [] && len > |mem[c[0]].payload| {
      KeepLeast(mem, c[1..], len - |mem[c[0]].payload|);
      assert c[..k] == [c[0]] + c[1..][..k - 1];
      if k > 2 {
        assert c[..k - 1] == [c[0]] + c[1..][..k - 2];
      }
      DataCons(mem, c[0], c[1..][..k - 1]);
      if k >= 2 {
        DataCons(mem, c[0], c[1..][..k - 2]);
        assert c[..k - 1] == [c[0]] + c[1..][..k - 2];
      }
    } else if c != [] {
      DataCons(mem, c[0], []);
      assert c[..1] == [c[0]] + [];
    }
  }

  lemma DataCons(mem: Memory, p: Ptr, c: seq<Ptr>)
    requires p in mem
    ensures Data(mem, [p] + c) == mem[p].payload + Data(mem, c)
  {
    assert ([p] + c)[1..] == c;
  }

  /** The loop of pbuf_realloc: `rem` bytes are to stay in pbuf `q`, the first of `rest`. */
  method ShrinkWalk(mem0: Memory, p: Ptr, newLen: nat, ghost c: seq<Ptr>, ghost held: Holders)
    returns (mem: Memory, q: Ptr, rem: nat, ghost done: seq<Ptr>, ghost rest: seq<Ptr>)
    requires c != [] && Seg(mem0, held, c, false, NIL) && p == c[0] && p in mem0 && newLen < mem0[p].totLen
    ensures Walking(mem0, mem, held, c, done, rest, rem) && q == rest[0] && q in mem && rem <= |mem[q].payload|
    ensures mem[q].totLen + newLen == rem + mem0[p].totLen && |done| + 1 == Keep(mem0, c, newLen)
  {
    hide Seg, Apart, Touched, Walking;
    mem, q, rem := mem0, p, newLen;
    done, rest := [], c;
    WalkStart(mem0, held, c, rem);
    WalkAt(mem0, mem, held, c, done, rest, rem);
    while rem > |mem[q].payload|
      invariant rest != [] && q == rest[0] && q in mem && Walking(mem0, mem, held, c, done, rest, rem)
      invariant mem[q].totLen + newLen == rem + mem0[p].totLen
      invariant Keep(mem0, c, newLen) == |done| + Keep(mem0, rest, rem)
      decreases |rest|
    {
      WalkAt(mem0, mem, held, c, done, rest, rem);
      WalkStep(mem0, mem, held, c, done, rest, rem, rem - |mem[q].payload|);
      rem := rem - |mem[q].payload|;
      mem := mem[q := mem[q].(totLen := mem[q].totLen + newLen - mem0[p].totLen)];
      q := mem[q].next;
      done, rest := done + [rest[0]], rest[1..];
    }
    WalkAt(mem0, mem, held, c, done, rest, rem);
  }

  /** What is left behind a cut: pbufs nobody holds are released, up to the first held one. */
  ghost predicate Cut(mem: Memory, mem': Memory, held: Holders, rest: seq<Ptr>, c: seq<Ptr>) {
    var n := Run(held, rest);
    && (forall x :: x in mem' <==> x in mem && x !in rest[..n])
    && Seg(mem', held, rest[n..], false, NIL) && Data(mem', rest[n..]) == Data(mem, rest[n..])
    && (forall x :: x in mem' && x !in c ==> mem'[x] == mem[x])
  }

  /** pbuf_realloc: the pbufs needed for the first `newLen` bytes stay, with just these bytes. */
  method Shrink(mem0: Memory, p: Ptr, newLen: nat, ghost c: seq<Ptr>, ghost held: Holders)
    returns (mem: Memory)
    requires c != [] && Seg(mem0, held, c, false, NIL) && p == c[0] && p in mem0 && newLen < mem0[p].totLen
    ensures var k := Keep(mem0, c, newLen);
            && Seg(mem, held, c[..k], false, NIL) && Cut(mem0, mem, held, c[k..], c)
            && newLen <= |Data(mem0, c)| && Data(mem, c[..k]) == Data(mem0, c)[..newLen]
  {
    hide Seg, Apart, Touched, Walking, Data, Cut, Released;
    ghost var done, all, kept, rest;
    var q, rem;
    mem, q, rem, done, all := ShrinkWalk(mem0, p, newLen, c, held);
    ghost var walked := mem;
    WalkAt(mem0, mem, held, c, done, all, rem);
    kept, rest := done + [q], all[1..];
    TrimOk(mem0, walked, held, c, done, all, rem);
    mem := mem[q := mem[q].(payload := mem[q].payload[..rem], totLen := rem)];
    ghost var trimmed := mem;
    var count := 0;
    if mem[q].next != 0 {
      mem, count := FreeWalk(mem, mem[q].next, rest, held);
    } else {
      NothingFreed(mem, held, rest);
    }
    TrimKept(trimmed, mem, held, done, q, rem, rest, count);
    TrimData(mem0, walked, trimmed, held, c, done, all, rem, newLen);
    TrimCut(mem0, walked, trimmed, mem, held, c, done, all, rem, count);
    mem := mem[q := mem[q].(next := 0)];
    assert c == kept + rest && |kept| == Keep(mem0, c, newLen);
    assert c[..|kept|] == kept && c[|kept|..] == rest;
  }

  lemma NothingFreed(mem: Memory, held: Holders, c: seq<Ptr>)
    requires c == []
    ensures Run(held, c) == 0 && Released(mem, mem, c[..0], c) && Seg(mem, held, c[0..], false, NIL)
  {
  }

  /** Trimming pbuf `q` affects neither what is before it nor what is behind it. */
  lemma TrimOk(mem0: Memory, mem: Memory, held: Holders, c: seq<Ptr>, done: seq<Ptr>, all: seq<Ptr>, rem: nat)
    requires Walking(mem0, mem, held, c, done, all, rem) && all[0] in mem && rem <= |mem[all[0]].payload|
    ensures var q, rest := all[0], all[1..];
            var m := mem[q := mem[q].(payload := mem[q].payload[..rem], totLen := rem)];
            && Seg(m, held, done, false, End(q, rem)) && Seg(m, held, rest, true, NIL)
            && Data(m, done) == Data(mem0, done) && Data(m, rest) == Data(mem0, rest)
            && q !in done && q !in rest && Apart(done, rest) && c == done + [q] + rest
            && m[q].ref == held[q] + (if done != [] then 1 else 0) > 0 && q != 0
  {
    hide Touched;
    var q, rest := all[0], all[1..];
    var m := mem[q := mem[q].(payload := mem[q].payload[..rem], totLen := rem)];
    assert q in all && forall x :: x in rest ==> x in all;
    SegFrame(mem, held, m, held, done, false, End(q, rem));
    SegFrame(mem, held, m, held, rest, true, NIL);
    TouchedData(mem0, mem, c, done);
    TouchedData(mem0, mem, c, rest);
    assert c == done + [q] + rest;
  }

  lemma TouchedData(mem: Memory, mem': Memory, c: seq<Ptr>, d: seq<Ptr>)
    requires Touched(mem, mem', c)
    ensures Data(mem', d) == Data(mem, d)
  {
    DataSame(mem, mem', d);
  }

  /** What stays is a chain in order once its last pbuf is unlinked. */
  lemma TrimKept(mem: Memory, mem': Memory, held: Holders, done: seq<Ptr>, q: Ptr, rem: nat, rest: seq<Ptr>, n: nat)
    requires n <= |rest| && Released(mem, mem', rest[..n], rest) && Seg(mem, held, done, false, End(q, rem))
    requires q !in done && q !in rest && Apart(done, rest) && q in mem && q != 0
    requires mem[q].totLen == |mem[q].payload| == rem && mem[q].ref == held[q] + (if done != [] then 1 else 0) > 0
    ensures q in mem' && var m := mem'[q := mem'[q].(next := 0)];
            Seg(m, held, done + [q], false, NIL) && Data(m, done + [q]) == Data(mem, done) + mem[q].payload
  {
    assert q !in rest[..n];
    var m := mem'[q := mem'[q].(next := 0)];
    SegIn(mem, held, done, false, End(q, rem));
    forall x | x in done ensures x in m && m[x] == mem[x] {
      assert x !in rest && x !in rest[..n];
    }
    SegFrame(mem, held, m, held, done, false, End(q, rem));
    SegOne(m, held, q, done != [], NIL);
    SegJoin(m, held, done, [q], false, NIL);
    assert [q][1..] == [] && Data(m, [q]) == m[q].payload + Data(m, []);
  }

  /** The bytes kept are the first ones of the chain. */
  lemma TrimData(mem0: Memory, walked: Memory, trimmed: Memory, held: Holders, c: seq<Ptr>, done: seq<Ptr>, all: seq<Ptr>, rem: nat, newLen: nat)
    requires Seg(mem0, held, c, false, NIL) && c != [] && c[0] in mem0
    requires Walking(mem0, walked, held, c, done, all, rem) && all[0] in walked && rem <= |walked[all[0]].payload|
    requires walked[all[0]].totLen + newLen == rem + mem0[c[0]].totLen && newLen < mem0[c[0]].totLen
    requires Data(trimmed, done) == Data(mem0, done)
    ensures newLen <= |Data(mem0, c)|
    ensures Data(trimmed, done) + walked[all[0]].payload[..rem] == Data(mem0, c)[..newLen]
  {
    hide Seg, Touched, Data;
    TotalIsLength(mem0, held, c, false, NIL);
    TotalIsLength(walked, held, all, done != [], NIL);
    SegIn(mem0, held, c, false, NIL);
    assert c == done + all && forall x :: x in done || x in all ==> x in c;
    SegJoin(mem0, held, done, all, false, NIL);
    TouchedData(mem0, walked, c, all);
    DataHead(walked, all);
    assert |Data(mem0, c)| == |Data(mem0, done)| + |Data(mem0, all)|;
  }

  lemma DataHead(mem: Memory, c: seq<Ptr>)
    requires c != [] && c[0] in mem
    ensures Data(mem, c) == mem[c[0]].payload + Data(mem, c[1..])
  {
  }

  lemma TrimCut(mem0: Memory, walked: Memory, trimmed: Memory, mem': Memory, held: Holders, c: seq<Ptr>, done: seq<Ptr>, all: seq<Ptr>, rem: nat, n: nat)
    requires Walking(mem0, walked, held, c, done, all, rem) && all[0] in walked && rem <= |walked[all[0]].payload|
    requires trimmed == walked[all[0] := walked[all[0]].(payload := walked[all[0]].payload[..rem], totLen := rem)]
    requires var rest := all[1..]; n == Run(held, rest) && Released(trimmed, mem', rest[..n], rest) && all[0] in mem'
                                   && Seg(mem', held, rest[n..], false, NIL)
    ensures Cut(mem0, mem'[all[0] := mem'[all[0]].(next := 0)], held, all[1..], c)
  {
    var q, rest := all[0], all[1..];
    var m := mem'[q := mem'[q].(next := 0)];
    assert q in all && (forall x :: x in rest ==> x in all && x in c) && q in c && q !in rest;
    assert forall x :: x in rest[n..] || x in rest[..n] ==> x in rest;
    SegFrame(mem', held, m, held, rest[n..], false, NIL);
    forall x | x in rest[n..] ensures (x in mem0 <==> x in m) && (x in mem0 ==> m[x].payload == mem0[x].payload) {
      assert x != q;
      SegIn(mem', held, rest[n..], false, NIL);
    }
    DataSame(mem0, m, rest[n..]);
  }
}
