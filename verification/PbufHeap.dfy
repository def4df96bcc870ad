/**
 The operations of pbuf.c that change chains and reference counts, on memory updated in place.
 */
module PbufHeap {
  import opened Basics
  import opened PbufChains

  // ----- all chains

  ghost predicate In(chains: set<seq<Ptr>>, x: Ptr) {
    exists c :: c in chains && x in c
  }

  /** Memory is made of separate chains, all in order; only what exists is held. */
  ghost predicate PoolOk(mem: Memory, held: Holders, chains: set<seq<Ptr>>) {
    && (forall c :: c in chains ==> ChainOk(mem, held, c))
    && (forall c, d {:trigger Apart(c, d)} :: c in chains && d in chains && c != d ==> Apart(c, d))
    && (forall x {:trigger In(chains, x)} :: x in mem ==> In(chains, x))
    && (forall x :: x in held ==> x in mem)
  }

  /** Chains `outs` make way for `ins`, made of the same pbufs; the others are left alone. */
  lemma Rechain(mem: Memory, held: Holders, chains: set<seq<Ptr>>, outs: set<seq<Ptr>>,
                mem': Memory, held': Holders, ins: set<seq<Ptr>>)
    requires PoolOk(mem, held, chains) && outs <= chains
    requires forall c :: c in ins ==> ChainOk(mem', held', c) && forall x :: x in c ==> In(outs, x)
    requires forall c, d {:trigger Apart(c, d)} :: c in ins && d in ins && c != d ==> Apart(c, d)
    requires forall x :: !In(outs, x) ==> (x in mem' <==> x in mem) && (x in mem ==> mem'[x] == mem[x]) && held'[x] == held[x]
    requires forall x :: In(outs, x) && x in mem' ==> In(ins, x)
    requires forall x :: In(outs, x) && x in held' ==> x in mem'
    ensures PoolOk(mem', held', chains - outs + ins)
  {
    hide ChainOk;
    var chains' := chains - outs + ins;
    forall c | c in chains - outs ensures ChainOk(mem', held', c) && forall x :: x in c ==> !In(outs, x) {
      forall x | x in c ensures !In(outs, x) {
        forall d | d in outs ensures x !in d {
          assert Apart(c, d);
        }
      }
      ChainFrame(mem, held, mem', held', c);
    }
    forall c, d | c in chains' && d in chains' && c != d ensures Apart(c, d) {
      if c in chains - outs && d in chains - outs {
        assert Apart(c, d);
      }
    }
    forall x | x in mem' ensures In(chains', x) {
      if !In(outs, x) {
        assert In(chains, x);
        var c :| c in chains && x in c;
        assert c in chains';
      } else {
        var c :| c in ins && x in c;
        assert c in chains';
      }
    }
  }

  /** One chain makes way for `ins`, made of its pbufs. */
  lemma RechainOne(mem: Memory, held: Holders, chains: set<seq<Ptr>>, c: seq<Ptr>,
                   mem': Memory, held': Holders, ins: set<seq<Ptr>>)
    requires PoolOk(mem, held, chains) && c in chains
    requires forall d :: d in ins ==> ChainOk(mem', held', d) && forall x :: x in d ==> x in c
    requires forall d, e {:trigger Apart(d, e)} :: d in ins && e in ins && d != e ==> Apart(d, e)
    requires forall x :: x !in c ==> (x in mem' <==> x in mem) && (x in mem ==> mem'[x] == mem[x]) && held'[x] == held[x]
    requires forall x :: x in c && x in mem' ==> In(ins, x)
    requires forall x :: x in c && x in held' ==> x in mem'
    ensures PoolOk(mem', held', chains - {c} + ins)
  {
    hide PoolOk, ChainOk, Apart;
    forall x ensures In({c}, x) <==> x in c {
      assert c in {c};
    }
    Rechain(mem, held, chains, {c}, mem', held', ins);
  }

  lemma ChainFrame(mem: Memory, held: Holders, mem': Memory, held': Holders, c: seq<Ptr>)
    requires ChainOk(mem, held, c)
    requires forall x :: x in c && x in mem ==> x in mem' && mem'[x] == mem[x] && held'[x] == held[x]
    ensures ChainOk(mem', held', c)
  {
    SegFrame(mem, held, mem', held', c, false, NIL);
  }

  // ----- references

  lemma {:induction false} Retained(mem: Memory, held: Holders, c: seq<Ptr>, linked: bool, end: End, p: Ptr)
    requires Seg(mem, held, c, linked, end) && p in mem
    ensures Seg(mem[p := mem[p].(ref := mem[p].ref + 1)], held + multiset{p}, c, linked, end)
    decreases |c|
  {
    if c != [] {
      Retained(mem, held, c[1..], true, end, p);
    }
  }

  /** A holder's reference turned into a link. */
  lemma HolderToLink(mem: Memory, held: Holders, c: seq<Ptr>, end: End)
    requires c != [] && Seg(mem, held, c, false, end) && held[c[0]] > 0
    ensures Seg(mem, held - multiset{c[0]}, c, true, end)
  {
    var held' := held - multiset{c[0]};
    forall x | x in c[1..] ensures held'[x] == held[x] {
      assert x != c[0];
    }
    SegFrame(mem, held, mem, held', c[1..], true, end);
  }

  /** The part of a chain from pbuf `p` on. */
  lemma Split(mem: Memory, held: Holders, c: seq<Ptr>, p: Ptr) returns (i: nat)
    requires ChainOk(mem, held, c) && p in c
    ensures i < |c| && c[i] == p && c == c[..i] + c[i..] && p in mem && p != 0
    ensures Seg(mem, held, c[..i], false, End(p, mem[p].totLen)) && Seg(mem, held, c[i..], i > 0, NIL) && Apart(c[..i], c[i..])
    ensures Data(mem, c) == Data(mem, c[..i]) + Data(mem, c[i..])
  {
    SegIn(mem, held, c, false, NIL);
    i :| 0 <= i < |c| && c[i] == p;
    assert c == c[..i] + c[i..];
    assert forall x :: x in c[i..] || x in c[..i] ==> x in c;
    SegJoin(mem, held, c[..i], c[i..], false, NIL);
  }

  class PbufPool {
    var mem: Memory
    ghost var held: Holders
    ghost var chains: set<seq<Ptr>>

    ghost predicate Valid()
      reads this
    {
      PoolOk(mem, held, chains)
    }

    constructor ()
      ensures Valid() && mem == map[] && held == multiset{}
    {
      mem, held, chains := map[], multiset{}, {};
    }

    /** pbuf_alloc from RAM, or for bytes elsewhere: a fresh pbuf, held by the caller. */
    method Alloc(p: Ptr, kind: Kind, payload: seq<u8>, room: seq<u8>)
      requires Valid() && p != 0 && p !in mem
      modifies this
      ensures Valid() && chains == old(chains) + {[p]} && held == old(held) + multiset{p}
      ensures mem == old(mem)[p := Pbuf(0, payload, |payload|, 1, kind, room)]
    {
      hide PoolOk;
      AllocOk(mem, held, chains, p, Pbuf(0, payload, |payload|, 1, kind, room));
      mem := mem[p := Pbuf(0, payload, |payload|, 1, kind, room)];
      held, chains := held + multiset{p}, chains + {[p]};
    }

    /** pbuf_alloc from the pool: a chain of as many buffers as it takes, the first with `offset`
        bytes of room. `supply` are the buffers the pool has left, `raw` what is in them. When they
        do not suffice those taken are given back. */
    method AllocPool(offset: nat, length: nat, bufsize: nat, supply: seq<Ptr>, raw: seq<seq<u8>>) returns (p: Ptr)
      requires Valid() && offset < bufsize && Supply(mem, held, supply, raw, bufsize)
      modifies this
      ensures Valid()
      ensures var lens := Lens(length, bufsize - offset, bufsize);
              if |lens| > |supply| then p == 0 && mem == old(mem) && held == old(held) && chains == old(chains)
              else
                var c := supply[..|lens|];
                && p == c[0] && chains == old(chains) + {c} && held == old(held) + multiset{p}
                && (forall i :: 0 <= i < |c| ==> c[i] in mem && |mem[c[i]].payload| == lens[i] && mem[c[i]].kind == Pool)
                && |Data(mem, c)| == length && mem[p].room == raw[0][..offset]
                && (forall x :: x in mem <==> x in old(mem) || x in c) && (forall x :: x in old(mem) ==> mem[x] == old(mem)[x])
    {
      hide PoolOk, Pooled, Supply, Lens, Seg, Released, Run, Data;
      ghost var lens := Lens(length, bufsize - offset, bufsize);
      if supply == [] {
        return 0;
      }
      ghost var before := mem;
      var n, rem;
      mem, n, rem := PoolLoop(mem, supply, raw, offset, length, bufsize, held);
      p := supply[0];
      if rem > 0 {
        ghost var taken := mem;
        PooledUnlink(before, mem, held, supply, raw, bufsize, lens, n, rem);
        var count;
        mem, count := FreeWalk(mem, p, supply[..n], held, rem);
        PooledGone(before, taken, mem, held, supply, raw, bufsize, lens, n, rem, count);
        return 0;
      }
      PooledOk(before, mem, held, chains, supply, raw, bufsize, lens, n, length);
      held, chains := held + multiset{p}, chains + {supply[..n]};
    }

    /** pbuf_ref */
    method Retain(p: Ptr)
      requires Valid() && p in mem
      modifies this
      ensures Valid() && chains == old(chains) && held == old(held) + multiset{p}
      ensures mem == old(mem)[p := old(mem)[p].(ref := old(mem)[p].ref + 1)]
    {
      hide PoolOk;
      RetainOk(mem, held, chains, p);
      mem := mem[p := mem[p].(ref := mem[p].ref + 1)];
      held := held + multiset{p};
    }

    /** pbuf_free: the pbufs released are those at the head of the chain that nobody holds any more,
        up to the first that is still held; none, if `p` is not the first of its chain. */
    method Free(p: Ptr, ghost c: seq<Ptr>) returns (count: nat)
      requires Valid() && c in chains && p in c && p in held
      modifies this
      ensures Valid() && held == old(held) - multiset{p}
      ensures count == if p == c[0] then Run(held, c) else 0
      ensures chains == if count == 0 then old(chains) else if count < |c| then old(chains) - {c} + {c[count..]} else old(chains) - {c}
      ensures Released(old(mem), mem, c[..count], c)
    {
      hide PoolOk, ChainOk, Released, Seg, Run;
      ghost var i := FreeSplit(mem, held, chains, c, p);
      ghost var held0 := held;
      held := held - multiset{p};
      ghost var before := mem;
      mem, count := FreeWalk(mem, p, c[i..], if i == 0 then held else held0);
      if i == 0 {
        assert c[0..] == c;
        FreeHeadOk(before, held0, chains, c, mem, count);
        chains := Without(chains, c, count);
      } else {
        FreeMidOk(before, held0, chains, c, mem, i, count);
      }
    }

    /** pbuf_cat: the second chain is linked behind the first, which takes over one reference the
        caller holds to it. */
    method Cat(h: Ptr, t: Ptr, ghost c: seq<Ptr>, ghost d: seq<Ptr>)
      requires Valid() && c in chains && d in chains && c != d && h == c[0] && t == d[0] && t in held
      modifies this
      ensures Valid() && held == old(held) - multiset{t} && chains == old(chains) - {c, d} + {c + d}
      ensures Data(mem, c + d) == Data(old(mem), c) + Data(old(mem), d)
      ensures Touched(old(mem), mem, c)
    {
      hide PoolOk, ChainOk, Touched, Seg, Data;
      CatPre(mem, held, chains, c, d);
      ghost var before := mem;
      mem := CatWalk(mem, h, t, c, held);
      CatOk(before, held, chains, c, d, mem);
      held, chains := held - multiset{t}, chains - {c, d} + {c + d};
    }

    /** pbuf_chain: the caller keeps its reference to the second chain. */
    method Chain(h: Ptr, t: Ptr, ghost c: seq<Ptr>, ghost d: seq<Ptr>)
      requires Valid() && c in chains && d in chains && c != d && h == c[0] && t == d[0] && t in held
      modifies this
      ensures Valid() && held == old(held) && chains == old(chains) - {c, d} + {c + d}
      ensures Data(mem, c + d) == Data(old(mem), c) + Data(old(mem), d)
    {
      hide PoolOk, ChainOk, Touched, Seg, Data;
      CatPre(mem, held, chains, c, d);
      Cat(h, t, c, d);
      TouchedIn(old(mem), mem, c, t);
      ghost var joined := mem;
      Retain(t);
      DataSame(joined, mem, c + d);
      assert old(held) - multiset{t} + multiset{t} == old(held);
    }

    /** pbuf_dechain: the first pbuf is cut off. What follows loses the link to it: it is released
        as far as nobody holds it. NULL is returned if any of it was. */
    method Dechain(p: Ptr, ghost c: seq<Ptr>) returns (tail: Ptr)
      requires Valid() && c in chains && p == c[0]
      modifies this
      ensures Valid() && held == old(held) && chains == Cutoff(old(chains), held, c, [p], c[1..])
      ensures tail == if Run(held, c[1..]) == 0 then Head(c[1..], 0) else 0
      ensures Data(mem, [p]) + Data(old(mem), c[1..]) == Data(old(mem), c) && Cut(old(mem), mem, held, c[1..], c)
    {
      hide PoolOk, ChainOk, Released, Seg, Data, Run, Cut;
      DechainPre(mem, held, chains, c);
      var q := mem[p].next;
      ghost var before, n := mem, 0;
      var gone := 0;
      if q != 0 {
        mem := mem[q := mem[q].(totLen := mem[p].totLen - |mem[p].payload|)];
        mem := mem[p := mem[p].(next := 0, totLen := |mem[p].payload|)];
        ghost var cut := mem;
        DechainCut(before, held, c, mem);
        mem, gone := FreeWalk(mem, q, c[1..], held);
        DechainOk(before, held, c, cut, mem, gone);
      } else {
        DechainOne(before, held, c);
      }
      CutOk(before, held, chains, c, mem, [p], c[1..]);
      chains := Cutoff(chains, held, c, [p], c[1..]);
      tail := if gone > 0 then 0 else q;
    }

    /** pbuf_realloc: longer than the chain changes nothing; else the chain keeps its first bytes,
        and of the pbufs behind those go that nobody holds, up to the first held one. */
    method Realloc(p: Ptr, newLen: nat, ghost c: seq<Ptr>)
      requires Valid() && c in chains && p == c[0]
      modifies this
      ensures Valid() && held == old(held)
      ensures newLen >= |Data(old(mem), c)| ==> mem == old(mem) && chains == old(chains)
      ensures newLen < |Data(old(mem), c)| ==>
                var k := Keep(old(mem), c, newLen);
                && chains == Cutoff(old(chains), held, c, c[..k], c[k..]) && Cut(old(mem), mem, held, c[k..], c)
                && Data(mem, c[..k]) == Data(old(mem), c)[..newLen]
    {
      hide PoolOk, ChainOk, Cut, Seg, Data, Run;
      DechainPre(mem, held, chains, c);
      if newLen >= mem[p].totLen {
        return;
      }
      ghost var before, k := mem, Keep(mem, c, newLen);
      mem := Shrink(mem, p, newLen, c, held);
      assert c == c[..k] + c[k..];
      CutOk(before, held, chains, c, mem, c[..k], c[k..]);
      chains := Cutoff(chains, held, c, c[..k], c[k..]);
    }

    /** pbuf_header: a header is hidden, or room before the payload is taken for one. */
    method Header(p: Ptr, increment: int, ghost c: seq<Ptr>) returns (failed: bool)
      requires Valid() && c in chains && p == c[0] && p in mem
      modifies this
      ensures Valid() && held == old(held) && chains == old(chains)
      ensures failed == !CanShift(old(mem)[p], increment)
      ensures failed <==> var b := old(mem)[p];
                if increment < 0 then -increment > |b.payload|
                else increment > 0 && !((b.kind == Ram || b.kind == Pool) && increment <= |b.room|)
      ensures mem == if failed then old(mem) else old(mem)[p := Shifted(old(mem)[p], increment)]
      ensures !failed && increment < 0 ==> Data(mem, c) == Data(old(mem), c)[-increment..]
      ensures !failed && increment >= 0 ==> Data(mem, c)[increment..] == Data(old(mem), c)
    {
      hide PoolOk, ChainOk, Data, Seg;
      DechainPre(mem, held, chains, c);
      assert CanShift(mem[p], increment) <==> Shiftable(mem[p], increment) by { ShiftableIs(mem[p], increment); }
      if increment == 0 {
        return false;
      }
      var b := mem[p];
      ghost var before := mem;
      if increment < 0 && -increment > |b.payload| {
        return true;
      }
      if CanShift(b, increment) {
        ShiftPool(mem, held, chains, c, increment);
      }
      if b.kind == Ram || b.kind == Pool {
        if increment > |b.room| {
          return true;
        }
        mem := mem[p := b.(payload := if increment < 0 then b.payload[-increment..] else b.room[|b.room| - increment..] + b.payload,
                           room := if increment < 0 then b.room + b.payload[..-increment] else b.room[..|b.room| - increment])];
      } else {
        if increment > 0 {
          return true;
        }
        mem := mem[p := b.(payload := b.payload[-increment..])];
      }
      mem := mem[p := mem[p].(totLen := mem[p].totLen + increment)];
      assert mem == before[p := Shifted(b, increment)];
      failed := false;
    }

    /** pbuf_clen */
    method Clen(p: Ptr, ghost c: seq<Ptr>) returns (n: nat)
      requires Valid() && c in chains && p == c[0]
      ensures n == |c|
    {
      hide PoolOk;
      n := 0;
      var q := p;
      ghost var rest := c;
      assert ChainOk(mem, held, c) by { PoolChain(mem, held, chains, c); }
      while q != 0
        invariant 0 <= n <= |c| && rest == c[n..] && q == Head(rest, 0)
        invariant exists linked :: Seg(mem, held, rest, linked, NIL)
        decreases |rest|
      {
        n := n + 1;
        q := mem[q].next;
        rest := rest[1..];
        assert Seg(mem, held, rest, true, NIL);
      }
      ghost var linked :| Seg(mem, held, rest, linked, NIL);
      SegIn(mem, held, rest, linked, NIL);
    }
  }

  // ----- headers

  predicate CanShift(b: Pbuf, increment: int) {
    if increment < 0 then -increment <= |b.payload| <= b.totLen
    else increment == 0 || ((b.kind == Ram || b.kind == Pool) && increment <= |b.room|)
  }

  /** What it takes to hide or to reveal a header: that many bytes of payload, or that many bytes of
      the own buffer before it. */
  predicate Shiftable(b: Pbuf, increment: int) {
    if increment < 0 then -increment <= |b.payload|
    else increment == 0 || ((b.kind == Ram || b.kind == Pool) && increment <= |b.room|)
  }

  lemma ShiftableIs(b: Pbuf, increment: int)
    requires |b.payload| <= b.totLen
    ensures CanShift(b, increment) <==> Shiftable(b, increment)
  {
  }

  /** In every pool in order a header of up to the length of the payload can be hidden. */
  lemma HideAlways(mem: Memory, held: Holders, chains: set<seq<Ptr>>, p: Ptr, k: int)
    requires PoolOk(mem, held, chains) && p in mem && k >= 0
    ensures CanShift(mem[p], -k) <==> k <= |mem[p].payload|
  {
    EachPbuf(mem, held, chains, p);
  }

  function Shifted(b: Pbuf, increment: int): Pbuf
    requires CanShift(b, increment)
  {
    var t := b.(totLen := b.totLen + increment);
    if increment == 0 then b
    else if increment > 0 then
      t.(payload := b.room[|b.room| - increment..] + b.payload, room := b.room[..|b.room| - increment])
    else if b.kind == Ram || b.kind == Pool then
      t.(payload := b.payload[-increment..], room := b.room + b.payload[..-increment])
    else t.(payload := b.payload[-increment..])
  }

  /** A header hidden can be revealed again, byte for byte, in buffers that own their bytes; in
      others it cannot be revealed at all. */
  lemma HeaderBack(b: Pbuf, k: int)
    requires 0 < k && CanShift(b, -k)
    ensures CanShift(Shifted(b, -k), k) <==> b.kind == Ram || b.kind == Pool
    ensures b.kind == Ram || b.kind == Pool ==> Shifted(Shifted(b, -k), k) == b
  {
    var room := b.room + b.payload[..k];
    assert room[|room| - k..] == b.payload[..k] && room[..|room| - k] == b.room;
  }

  lemma ShiftPool(mem: Memory, held: Holders, chains: set<seq<Ptr>>, c: seq<Ptr>, increment: int)
    requires PoolOk(mem, held, chains) && c in chains && c != [] && c[0] in mem && CanShift(mem[c[0]], increment) && increment != 0
    ensures var mem' := mem[c[0] := Shifted(mem[c[0]], increment)];
            && PoolOk(mem', held, chains)
            && (increment < 0 ==> |Data(mem, c)| >= -increment && Data(mem', c) == Data(mem, c)[-increment..])
            && (increment > 0 ==> |Data(mem', c)| >= increment && Data(mem', c)[increment..] == Data(mem, c))
  {
    hide PoolOk, Seg, Data, ChainOk;
    var b := Shifted(mem[c[0]], increment);
    PoolChain(mem, held, chains, c);
    ShiftSeg(mem, held, c, b);
    DataHead(mem, c);
    DataHead(mem[c[0] := b], c);
    RechainSame(mem, held, chains, c, mem[c[0] := b], held);
  }

  lemma ShiftSeg(mem: Memory, held: Holders, c: seq<Ptr>, b: Pbuf)
    requires ChainOk(mem, held, c) && c[0] in mem
    requires b.next == mem[c[0]].next && b.ref == mem[c[0]].ref
    requires b.totLen - |b.payload| == mem[c[0]].totLen - |mem[c[0]].payload|
    ensures ChainOk(mem[c[0] := b], held, c) && Data(mem[c[0] := b], c[1..]) == Data(mem, c[1..])
  {
    SegFrame(mem, held, mem[c[0] := b], held, c[1..], true, NIL);
  }

  /** The chains when `c` was cut in two, and what nobody holds behind the cut is gone. */
  ghost function Cutoff(chains: set<seq<Ptr>>, held: Holders, c: seq<Ptr>, kept: seq<Ptr>, rest: seq<Ptr>): set<seq<Ptr>> {
    chains - {c} + {kept} + (if Run(held, rest) < |rest| then {rest[Run(held, rest)..]} else {})
  }

  lemma CutOk(mem: Memory, held: Holders, chains: set<seq<Ptr>>, c: seq<Ptr>, mem': Memory, kept: seq<Ptr>, rest: seq<Ptr>)
    requires PoolOk(mem, held, chains) && c in chains && c == kept + rest && kept != []
    requires Seg(mem', held, kept, false, NIL) && Cut(mem, mem', held, rest, c)
    ensures PoolOk(mem', held, Cutoff(chains, held, c, kept, rest))
  {
    hide Seg, ChainOk, Run, PoolOk;
    var n := Run(held, rest);
    var tail := rest[n..];
    var ins := {kept} + if n < |rest| then {tail} else {};
    assert rest == rest[..n] + tail;
    PoolChain(mem, held, chains, c);
    ChainIn(mem, held, c);
    ChainApart(mem, held, kept, rest);
    ChainIs(mem', held, kept);
    if n < |rest| {
      ChainIs(mem', held, tail);
    }
    forall x | x in c && x in mem' ensures In(ins, x) {
      assert x in kept || x in tail;
      assert kept in ins;
    }
    RunUnheld(held, rest, n);
    PoolHeld(mem, held, chains);
    assert forall d :: d in ins ==> d == kept || d == tail;
    assert Apart(kept, tail) && Apart(tail, kept);
    RechainOne(mem, held, chains, c, mem', held, ins);
    assert chains - {c} + ins == Cutoff(chains, held, c, kept, rest);
  }

  lemma PoolHeld(mem: Memory, held: Holders, chains: set<seq<Ptr>>)
    requires PoolOk(mem, held, chains)
    ensures forall x :: x in held ==> x in mem
  {
  }

  lemma ChainApart(mem: Memory, held: Holders, a: seq<Ptr>, b: seq<Ptr>)
    requires ChainOk(mem, held, a + b)
    ensures forall x :: x in a ==> x !in b
  {
    SegIn(mem, held, a + b, false, NIL);
    assert forall x :: x in b ==> x in a + b;
    SegJoin(mem, held, a, b, false, NIL);
  }

  lemma DechainPre(mem: Memory, held: Holders, chains: set<seq<Ptr>>, c: seq<Ptr>)
    requires PoolOk(mem, held, chains) && c in chains
    ensures c != [] && Seg(mem, held, c, false, NIL) && c[0] in mem && c == [c[0]] + c[1..]
    ensures |mem[c[0]].payload| <= mem[c[0]].totLen == |Data(mem, c)|
    ensures |c| > 1 ==> mem[c[0]].next == c[1] != 0 && c[1] != c[0] && c[1] in mem && mem[c[1]].totLen == mem[c[0]].totLen - |mem[c[0]].payload|
    ensures |c| == 1 ==> mem[c[0]].next == 0
  {
    PoolChain(mem, held, chains, c);
    SegIn(mem, held, c, false, NIL);
    TotalIsLength(mem, held, c, false, NIL);
  }

  lemma DechainCut(mem: Memory, held: Holders, c: seq<Ptr>, cut: Memory)
    requires |c| > 1 && Seg(mem, held, c, false, NIL) && c[0] in mem
    requires cut == mem[c[0] := mem[c[0]].(next := 0, totLen := |mem[c[0]].payload|)]
    ensures Seg(cut, held, c[1..], true, NIL) && Seg(cut, held, [c[0]], false, NIL)
    ensures Data(cut, [c[0]]) + Data(mem, c[1..]) == Data(mem, c)
    ensures c[0] !in c[1..]
  {
    SegFrame(mem, held, cut, held, c[1..], true, NIL);
    SegOne(cut, held, c[0], false, NIL);
    DataHead(cut, [c[0]]);
    assert [c[0]][1..] == [] && Data(cut, []) == [];
  }

  lemma DechainOk(mem: Memory, held: Holders, c: seq<Ptr>, cut: Memory, mem': Memory, n: nat)
    requires |c| > 1 && c[0] in mem && c[0] !in c[1..] && n == Run(held, c[1..])
    requires cut == mem[c[0] := mem[c[0]].(next := 0, totLen := |mem[c[0]].payload|)]
    requires Released(cut, mem', c[1..][..n], c[1..]) && Seg(mem', held, c[1..][n..], false, NIL)
    requires Seg(cut, held, [c[0]], false, NIL)
    ensures Cut(mem, mem', held, c[1..], c)
    ensures Seg(mem', held, [c[0]], false, NIL) && Data(mem', [c[0]]) == Data(cut, [c[0]])
  {
    hide Run;
    var rest := c[1..];
    assert forall x :: x in rest[n..] || x in rest[..n] ==> x in rest;
    assert forall x :: x in rest ==> x in c;
    SegFrame(cut, held, mem', held, [c[0]], false, NIL);
    SegIn(mem', held, rest[n..], false, NIL);
    DataSame(mem, mem', rest[n..]);
  }

  lemma DechainOne(mem: Memory, held: Holders, c: seq<Ptr>)
    requires |c| == 1 && Seg(mem, held, c, false, NIL)
    ensures Cut(mem, mem, held, c[1..], c) && c == [c[0]] && Data(mem, c[1..]) == []
    ensures Run(held, c[1..]) == 0
  {
  }

  lemma PoolChain(mem: Memory, held: Holders, chains: set<seq<Ptr>>, c: seq<Ptr>)
    requires PoolOk(mem, held, chains) && c in chains
    ensures ChainOk(mem, held, c)
  {
  }

  lemma CatPre(mem: Memory, held: Holders, chains: set<seq<Ptr>>, c: seq<Ptr>, d: seq<Ptr>)
    requires PoolOk(mem, held, chains) && c in chains && d in chains && c != d
    ensures c != [] && d != [] && Seg(mem, held, c, false, NIL) && d[0] in mem && d[0] !in c
  {
    PoolChain(mem, held, chains, c);
    PoolChain(mem, held, chains, d);
    assert Apart(c, d) && d[0] in d;
    SegIn(mem, held, d, false, NIL);
  }

  lemma TouchedIn(mem: Memory, mem': Memory, c: seq<Ptr>, x: Ptr)
    requires Touched(mem, mem', c)
    ensures x in mem' <==> x in mem
  {
  }

  lemma CatOk(mem: Memory, held: Holders, chains: set<seq<Ptr>>, c: seq<Ptr>, d: seq<Ptr>, mem': Memory)
    requires PoolOk(mem, held, chains) && c in chains && d in chains && c != d && c != [] && d != []
    requires d[0] in held && d[0] in mem && Touched(mem, mem', c) && Seg(mem', held, c, false, End(d[0], mem[d[0]].totLen))
    ensures PoolOk(mem', held - multiset{d[0]}, chains - {c, d} + {c + d})
    ensures Data(mem', c + d) == Data(mem, c) + Data(mem, d)
  {
    hide Seg, Touched;
    var held' := held - multiset{d[0]};
    PoolChain(mem, held, chains, d);
    assert Apart(c, d) && Apart(d, c);
    ChainIn(mem, held, c);
    ChainIn(mem, held, d);
    TouchedOut(mem, mem', c);
    assert d[0] in d;
    SegFrame(mem', held, mem', held', c, false, End(d[0], mem[d[0]].totLen));
    SegFrame(mem, held, mem', held, d, false, NIL);
    HolderToLink(mem', held, d, NIL);
    SegJoin(mem', held', c, d, false, NIL);
    ChainIs(mem', held', c + d);
    DataSame(mem, mem', c);
    CatRechain(mem, held, chains, c, d, mem', held');
  }

  lemma TouchedOut(mem: Memory, mem': Memory, c: seq<Ptr>)
    requires Touched(mem, mem', c)
    ensures forall x :: x in mem' <==> x in mem
    ensures forall x :: x in mem && x !in c ==> mem'[x] == mem[x]
    ensures forall x :: x in mem ==> mem'[x].payload == mem[x].payload
  {
  }

  lemma CatRechain(mem: Memory, held: Holders, chains: set<seq<Ptr>>, c: seq<Ptr>, d: seq<Ptr>, mem': Memory, held': Holders)
    requires PoolOk(mem, held, chains) && c in chains && d in chains && ChainOk(mem', held', c + d)
    requires forall x :: x in mem' <==> x in mem
    requires forall x :: x in mem && x !in c && x !in d ==> mem'[x] == mem[x]
    requires forall x :: x !in d ==> held'[x] == held[x]
    requires forall x :: x in held' ==> x in held
    ensures PoolOk(mem', held', chains - {c, d} + {c + d})
  {
    hide ChainOk;
    forall x ensures In({c, d}, x) <==> x in c + d {
      assert c in {c, d} && d in {c, d};
    }
    forall x | x in c + d ensures In({c + d}, x) {
      assert c + d in {c + d};
    }
    Rechain(mem, held, chains, {c, d}, mem', held', {c + d});
  }

  /** The chains when `count` pbufs at the head of `c` are gone. */
  ghost function Without(chains: set<seq<Ptr>>, c: seq<Ptr>, count: nat): set<seq<Ptr>>
    requires count <= |c|
  {
    if count == 0 then chains else if count < |c| then chains - {c} + {c[count..]} else chains - {c}
  }

  lemma FreeSplit(mem: Memory, held: Holders, chains: set<seq<Ptr>>, c: seq<Ptr>, p: Ptr) returns (i: nat)
    requires PoolOk(mem, held, chains) && c in chains && p in c && p in held
    ensures i < |c| && c[i] == p && (i == 0 <==> p == c[0])
    ensures Seg(mem, if i == 0 then held - multiset{p} else held, c[i..], true, NIL)
  {
    i := Split(mem, held, c, p);
    SegIn(mem, held, c, false, NIL);
    if i == 0 {
      HolderToLink(mem, held, c[i..], NIL);
    }
  }

  lemma FreeHeadOk(mem: Memory, held: Holders, chains: set<seq<Ptr>>, c: seq<Ptr>, mem': Memory, n: nat)
    requires PoolOk(mem, held, chains) && c in chains && c != [] && c[0] in held
    requires n <= |c| && n == Run(held - multiset{c[0]}, c) && Released(mem, mem', c[..n], c)
    requires Seg(mem', held - multiset{c[0]}, c[n..], false, NIL)
    ensures PoolOk(mem', held - multiset{c[0]}, Without(chains, c, n))
  {
    hide Seg, ChainOk, Run;
    var held' := held - multiset{c[0]};
    var ins := if n < |c| then {c[n..]} else {};
    ChainIn(mem, held, c);
    assert c == c[..n] + c[n..];
    if n < |c| {
      ChainIs(mem', held', c[n..]);
    }
    forall x | x in c && x in mem' ensures In(ins, x) {
      assert x in c[n..] && c[n..] in ins;
    }
    RunUnheld(held', c, n);
    RechainOne(mem, held, chains, c, mem', held', ins);
    if n == 0 {
      assert c[0..] == c && chains - {c} + {c} == chains;
    }
    assert Without(chains, c, n) == chains - {c} + ins;
  }

  lemma RunUnheld(held: Holders, c: seq<Ptr>, n: nat)
    requires n <= |c| && forall i :: 0 <= i < n ==> held[c[i]] == 0
    ensures forall x :: x in c[..n] ==> held[x] == 0
  {
  }

  lemma FreeMidOk(mem: Memory, held: Holders, chains: set<seq<Ptr>>, c: seq<Ptr>, mem': Memory, i: nat, n: nat)
    requires PoolOk(mem, held, chains) && c in chains && 0 < i < |c| && c[i] in held
    requires n == Run(held, c[i..]) && n <= |c[i..]| && Released(mem, mem', c[i..][..n], c[i..])
    requires Seg(mem', held, c[i..][n..], false, NIL)
    ensures n == 0 && Released(mem, mem', c[..0], c) && PoolOk(mem', held - multiset{c[i]}, chains)
  {
    hide Seg, ChainOk, PoolOk, Run, Apart;
    var p, held' := c[i], held - multiset{c[i]};
    PoolChain(mem, held, chains, c);
    assert c[i..][0] == p;
    assert n == 0 && c[i..][0..] == c[i..] && c[i..][..0] == [];
    ChainIn(mem, held, c);
    var k := Split(mem, held, c, p);
    assert k == i by { ChainDistinct(mem, held, c, k, i); }
    HolderToLink(mem', held, c[i..], NIL);
    forall x | x in c[..i] ensures x in mem' && mem'[x] == mem[x] && held'[x] == held[x] && x !in c[i..] {
      assert x in c && p in c[i..];
    }
    SegFrame(mem, held, mem', held', c[..i], false, End(p, mem[p].totLen));
    assert Total(mem', c[i..], 0) == mem[p].totLen;
    SegJoin(mem', held', c[..i], c[i..], false, NIL);
    ChainIs(mem', held', c);
    assert forall x :: x in c[i..] ==> x in c;
    RechainSame(mem, held, chains, c, mem', held');
  }

  lemma RechainSame(mem: Memory, held: Holders, chains: set<seq<Ptr>>, c: seq<Ptr>, mem': Memory, held': Holders)
    requires PoolOk(mem, held, chains) && c in chains && ChainOk(mem', held', c)
    requires forall x :: x !in c ==> (x in mem' <==> x in mem) && (x in mem ==> mem'[x] == mem[x]) && held'[x] == held[x]
    ensures PoolOk(mem', held', chains)
  {
    hide PoolOk, ChainOk, Apart, Seg;
    ChainIn(mem', held', c);
    forall x | x in c ensures In({c}, x) {
      assert c in {c};
    }
    RechainOne(mem, held, chains, c, mem', held', {c});
    assert chains - {c} + {c} == chains;
  }

  lemma ChainDistinct(mem: Memory, held: Holders, c: seq<Ptr>, i: nat, j: nat)
    requires ChainOk(mem, held, c) && i < |c| && j < |c| && c[i] == c[j]
    ensures i == j
  {
    SegIn(mem, held, c, false, NIL);
  }

  lemma AllocOk(mem: Memory, held: Holders, chains: set<seq<Ptr>>, p: Ptr, b: Pbuf)
    requires PoolOk(mem, held, chains) && p != 0 && p !in mem
    requires b.next == 0 && b.totLen == |b.payload| && b.ref == 1
    ensures PoolOk(mem[p := b], held + multiset{p}, chains + {[p]})
  {
    hide ChainOk;
    var mem', held', chains' := mem[p := b], held + multiset{p}, chains + {[p]};
    forall c | c in chains ensures ChainOk(mem', held', c) && p !in c {
      ChainIn(mem, held, c);
      ChainFrame(mem, held, mem', held', c);
    }
    SegOne(mem', held', p, false, NIL);
    assert ChainOk(mem', held', [p]) by { ChainIs(mem', held', [p]); }
    forall x | x in mem' ensures In(chains', x) {
      if x == p {
        assert [p] in chains' && p in [p];
      } else {
        assert In(chains, x);
        var c :| c in chains && x in c;
        assert c in chains';
      }
    }
  }

  lemma PooledUnlink(mem0: Memory, mem: Memory, held: Holders, supply: seq<Ptr>, raw: seq<seq<u8>>, bufsize: nat,
                     lens: seq<nat>, n: nat, rem: nat)
    requires Pooled(mem0, mem, held, supply, lens, n, rem) && Supply(mem0, held, supply, raw, bufsize)
    ensures 0 < n <= |supply| && Seg(mem, held, supply[..n], true, End(0, rem)) && supply[0] == supply[..n][0]
  {
    hide Seg;
    var c, held' := supply[..n], held + multiset{supply[0]};
    HolderToLink(mem, held', c, End(0, rem));
    assert held' - multiset{supply[0]} == held;
  }

  /** Nobody holds the buffers taken, so all are given back. */
  lemma PooledGone(mem0: Memory, mem: Memory, mem': Memory, held: Holders, supply: seq<Ptr>, raw: seq<seq<u8>>, bufsize: nat,
                   lens: seq<nat>, n: nat, rem: nat, count: nat)
    requires Pooled(mem0, mem, held, supply, lens, n, rem) && Supply(mem0, held, supply, raw, bufsize)
    requires count == Run(held, supply[..n]) && Released(mem, mem', supply[..n][..count], supply[..n])
    ensures mem' == mem0
  {
    hide Seg;
    var c := supply[..n];
    assert forall x :: x in c ==> x in supply;
    assert count == n && c[..n] == c;
    assert forall x :: x in mem' <==> x in mem0;
  }

  lemma PooledOk(mem0: Memory, mem: Memory, held: Holders, chains: set<seq<Ptr>>, supply: seq<Ptr>, raw: seq<seq<u8>>, bufsize: nat,
                 lens: seq<nat>, n: nat, length: nat)
    requires PoolOk(mem0, held, chains) && Supply(mem0, held, supply, raw, bufsize)
    requires Pooled(mem0, mem, held, supply, lens, n, 0)
    ensures 0 < n <= |supply| && n <= |lens|
    ensures PoolOk(mem, held + multiset{supply[0]}, chains + {supply[..n]})
    ensures forall i :: 0 <= i < n ==> supply[i] in mem && |mem[supply[i]].payload| == lens[i] && mem[supply[i]].kind == Pool
    ensures supply[..n][0] == supply[0] && Total(mem, supply[..n], 0) == |Data(mem, supply[..n])|
    ensures forall x :: x in mem <==> x in mem0 || x in supply[..n]
    ensures forall x :: x in mem0 ==> mem[x] == mem0[x]
  {
    hide Seg, ChainOk, PoolOk, Data, Total;
    var c, held' := supply[..n], held + multiset{supply[0]};
    TotalIsLength(mem, held', c, false, NIL);
    ChainIs(mem, held', c);
    assert forall x :: x in c ==> x in supply;
    EnterChain(mem0, held, chains, c, mem, held');
  }

  /** A new chain of pbufs not in use so far. */
  lemma EnterChain(mem: Memory, held: Holders, chains: set<seq<Ptr>>, c: seq<Ptr>, mem': Memory, held': Holders)
    requires PoolOk(mem, held, chains) && c != [] && ChainOk(mem', held', c) && held' == held + multiset{c[0]}
    requires forall x :: x in c ==> x !in mem
    requires forall x :: x in mem' <==> x in mem || x in c
    requires forall x :: x in mem ==> mem'[x] == mem[x]
    ensures PoolOk(mem', held', chains + {c})
  {
    hide ChainOk;
    var chains' := chains + {c};
    forall d | d in chains ensures ChainOk(mem', held', d) && Apart(d, c) && Apart(c, d) {
      ChainIn(mem, held, d);
      ChainFrame(mem, held, mem', held', d);
    }
    forall x | x in mem' ensures In(chains', x) {
      if x in c {
        assert c in chains';
      } else {
        assert In(chains, x);
        var d :| d in chains && x in d;
        assert d in chains';
      }
    }
  }

  lemma ChainIn(mem: Memory, held: Holders, c: seq<Ptr>)
    requires ChainOk(mem, held, c)
    ensures forall x :: x in c ==> x in mem
  {
    SegIn(mem, held, c, false, NIL);
  }

  lemma ChainIs(mem: Memory, held: Holders, c: seq<Ptr>)
    requires c != [] && Seg(mem, held, c, false, NIL)
    ensures ChainOk(mem, held, c)
  {
  }

  lemma RetainOk(mem: Memory, held: Holders, chains: set<seq<Ptr>>, p: Ptr)
    requires PoolOk(mem, held, chains) && p in mem
    ensures PoolOk(mem[p := mem[p].(ref := mem[p].ref + 1)], held + multiset{p}, chains)
  {
    hide Seg;
    forall c | c in chains ensures ChainOk(mem[p := mem[p].(ref := mem[p].ref + 1)], held + multiset{p}, c) {
      Retained(mem, held, c, false, NIL, p);
    }
  }

  // ----- what a pool in order means for each pbuf

  lemma {:induction false} SegAt(mem: Memory, held: Holders, c: seq<Ptr>, linked: bool, end: End, i: nat)
    requires Seg(mem, held, c, linked, end) && i < |c|
    ensures c[i] in mem && c[i] != 0
    ensures mem[c[i]].next == Head(c[i + 1..], end.at)
    ensures mem[c[i]].totLen == |mem[c[i]].payload| + Total(mem, c[i + 1..], end.total)
    ensures mem[c[i]].ref == held[c[i]] + (if linked || i > 0 then 1 else 0) > 0
    decreases |c|
  {
    if i > 0 {
      SegAt(mem, held, c[1..], true, end, i - 1);
      assert c[1..][i - 1 + 1..] == c[i + 1..];
    }
  }

  /** The pbufs linked to `p`. */
  ghost function Before(mem: Memory, p: Ptr): set<Ptr> {
    set q | q in mem && mem[q].next == p
  }

  /** No pbuf has two predecessors; each counts its holders and its predecessor, and is held by
      someone or linked to; tot_len adds up along the chain. */
  lemma EachPbuf(mem: Memory, held: Holders, chains: set<seq<Ptr>>, p: Ptr)
    requires PoolOk(mem, held, chains) && p in mem
    ensures |Before(mem, p)| <= 1 && mem[p].ref == held[p] + |Before(mem, p)| > 0
    ensures mem[p].next == 0 || mem[p].next in mem
    ensures mem[p].totLen == |mem[p].payload| + if mem[p].next == 0 then 0 else mem[mem[p].next].totLen
  {
    hide Seg;
    assert In(chains, p);
    var c :| c in chains && p in c;
    PoolChain(mem, held, chains, c);
    var i: nat :| i < |c| && c[i] == p;
    SegAt(mem, held, c, false, NIL, i);
    if i + 1 < |c| {
      SegAt(mem, held, c, false, NIL, i + 1);
    }
    forall q | q in mem && mem[q].next == p ensures i > 0 && q == c[i - 1] {
      OnlyBefore(mem, held, chains, c, i, q);
    }
    if i > 0 {
      SegAt(mem, held, c, false, NIL, i - 1);
      assert Before(mem, p) == {c[i - 1]};
    } else {
      assert Before(mem, p) == {};
    }
  }

  lemma OnlyBefore(mem: Memory, held: Holders, chains: set<seq<Ptr>>, c: seq<Ptr>, i: nat, q: Ptr)
    requires PoolOk(mem, held, chains) && c in chains && i < |c| && q in mem && mem[q].next == c[i]
    ensures i > 0 && q == c[i - 1]
  {
    hide Seg;
    assert In(chains, q);
    var d :| d in chains && q in d;
    PoolChain(mem, held, chains, c);
    PoolChain(mem, held, chains, d);
    var j: nat :| j < |d| && d[j] == q;
    SegAt(mem, held, d, false, NIL, j);
    SegAt(mem, held, c, false, NIL, i);
    assert j + 1 < |d| && d[j + 1] == c[i];
    assert c[i] in c && d[j + 1] in d;
    assert c != d ==> Apart(c, d);
    ChainDistinct(mem, held, c, i, j + 1);
  }

  /** Nothing leaks: from some pointer a holder has, every pbuf can be reached. */
  lemma NoLeak(mem: Memory, held: Holders, chains: set<seq<Ptr>>, p: Ptr)
    requires PoolOk(mem, held, chains) && p in mem
    ensures exists c :: c in chains && p in c && c != [] && c[0] in held
  {
    assert In(chains, p);
    var c :| c in chains && p in c;
    PoolChain(mem, held, chains, c);
    SegAt(mem, held, c, false, NIL, 0);
  }
}
