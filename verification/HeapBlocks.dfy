/**
 The heap of mem.c as a list of blocks: first-fit allocation with splitting, release with
 coalescing, shrinking. Offsets are indices into the heap array.
 */
module HeapBlocks {
  import opened Basics

  const MEM_SIZE := 16000  // MEM_SIZE_ALIGNED; MEM_ALIGNMENT is 1
  const HDR := 6           // SIZEOF_STRUCT_MEM: two 16-bit offsets, a flag, padding
  const MIN_SIZE := 12

  /** A block starts at `at` with a header; its data reach up to the next block. */
  datatype Block = Block(at: nat, used: bool)

  /** Where block `i` starts; one past the last block is the end of the heap. */
  function At(bs: seq<Block>, i: nat): nat
    requires i <= |bs|
  {
    if i < |bs| then bs[i].at else MEM_SIZE
  }

  /** Bytes of data in block `i`. */
  function Room(bs: seq<Block>, i: nat): int
    requires i < |bs|
  {
    At(bs, i + 1) - bs[i].at - HDR
  }

  /** The blocks tile the heap, each with room for the least amount of data. */
  predicate Tiles(bs: seq<Block>) {
    && bs != [] && bs[0].at == 0
    && forall i :: 0 <= i < |bs| ==> Room(bs, i) >= MIN_SIZE
  }

  predicate NoTwins(bs: seq<Block>) {
    forall i :: 0 <= i < |bs| - 1 ==> bs[i].used || bs[i + 1].used
  }

  predicate HeapOk(bs: seq<Block>) {
    Tiles(bs) && NoTwins(bs)
  }

  /** `l` is the offset of the lowest free block, or the end of the heap. */
  predicate Lowest(bs: seq<Block>, l: nat) {
    && (forall i :: 0 <= i < |bs| && bs[i].at < l ==> bs[i].used)
    && exists k :: 0 <= k <= |bs| && At(bs, k) == l && (k < |bs| ==> !bs[k].used)
  }

  // ----- operations

  /** The size actually reserved for a request. */
  function Padded(size: nat): nat {
    if size < MIN_SIZE then MIN_SIZE else size
  }

  predicate Fits(bs: seq<Block>, i: nat, size: nat)
    requires i < |bs|
  {
    !bs[i].used && Room(bs, i) >= size
  }

  /** The first block from `i` on that fits. */
  function FirstFit(bs: seq<Block>, i: nat, size: nat): Option<nat>
    decreases |bs| - i
  {
    if i >= |bs| then None
    else if Fits(bs, i, size) then Some(i)
    else FirstFit(bs, i + 1, size)
  }

  /** Use block `i`, splitting off a free remainder if that is large enough to hold data. */
  function Take(bs: seq<Block>, i: nat, size: nat): seq<Block>
    requires i < |bs|
  {
    if Room(bs, i) >= size + HDR + MIN_SIZE then
      bs[..i] + [Block(bs[i].at, true), Block(bs[i].at + HDR + size, false)] + bs[i + 1..]
    else bs[i := Block(bs[i].at, true)]
  }

  function Remove(bs: seq<Block>, i: nat): seq<Block>
    requires i < |bs|
  {
    bs[..i] + bs[i + 1..]
  }

  /** Merge the free block `i` with free neighbours. */
  function Plug(bs: seq<Block>, i: nat): seq<Block>
    requires i < |bs|
  {
    var b := if i + 1 < |bs| && !bs[i + 1].used then Remove(bs, i + 1) else bs;
    if i > 0 && !b[i - 1].used then Remove(b, i) else b
  }

  function Release(bs: seq<Block>, i: nat): seq<Block>
    requires i < |bs|
  {
    Plug(bs[i := Block(bs[i].at, false)], i)
  }

  /** Give the end of block `i` back, keeping `size` bytes. */
  function Shrink(bs: seq<Block>, i: nat, size: nat): seq<Block>
    requires i < |bs|
  {
    if size >= Room(bs, i) then bs
    else if i + 1 < |bs| && !bs[i + 1].used then bs[i + 1 := Block(bs[i].at + HDR + size, false)]
    else if size + HDR + MIN_SIZE <= Room(bs, i) then
      bs[..i + 1] + [Block(bs[i].at + HDR + size, false)] + bs[i + 1..]
    else bs
  }

  // ----- order of blocks

  lemma {:induction false} Gap(bs: seq<Block>, i: nat, j: nat)
    requires Tiles(bs) && i < j <= |bs|
    ensures bs[i].at + HDR + MIN_SIZE <= At(bs, j) <= MEM_SIZE
    decreases j - i
  {
    assert Room(bs, i) >= MIN_SIZE;
    if i + 1 < j {
      Gap(bs, i + 1, j);
    }
    if j < |bs| {
      BelowEnd(bs, j);
    }
  }

  lemma {:induction false} BelowEnd(bs: seq<Block>, i: nat)
    requires Tiles(bs) && i < |bs|
    ensures bs[i].at + HDR + MIN_SIZE <= MEM_SIZE
    decreases |bs| - i
  {
    assert Room(bs, i) >= MIN_SIZE;
    if i + 1 < |bs| {
      BelowEnd(bs, i + 1);
    }
  }

  /** Live regions never overlap. */
  lemma Disjoint(bs: seq<Block>, i: nat, j: nat)
    requires Tiles(bs) && i < |bs| && j < |bs| && i != j
    ensures bs[i].at + HDR + Room(bs, i) <= bs[j].at || bs[j].at + HDR + Room(bs, j) <= bs[i].at
  {
    if i < j {
      if i + 1 < j { Gap(bs, i + 1, j); }
    } else {
      if j + 1 < i { Gap(bs, j + 1, i); }
    }
  }

  // ----- allocation

  /** First fit returns the lowest fitting block, and fails only when none fits. */
  lemma {:induction false} FirstFitLowest(bs: seq<Block>, i: nat, size: nat)
    ensures var r := FirstFit(bs, i, size);
            && (r.Some? ==> i <= r.value < |bs| && Fits(bs, r.value, size))
            && forall j :: i <= j < (if r.Some? then r.value else |bs|) ==> !Fits(bs, j, size)
    decreases |bs| - i
  {
    if i < |bs| && !Fits(bs, i, size) {
      FirstFitLowest(bs, i + 1, size);
    }
  }

  lemma TakeAt(bs: seq<Block>, i: nat, size: nat)
    requires i < |bs| && Tiles(bs) && Fits(bs, i, size) && size >= MIN_SIZE
    ensures var t := Take(bs, i, size);
            var d := |t| - |bs|;
            && 0 <= d <= 1
            && (forall j :: 0 <= j <= i ==> t[j].at == bs[j].at && t[j].used == (j == i || bs[j].used))
            && (forall j :: i < j < |bs| ==> t[j + d] == bs[j])
            && (d == 1 ==> t[i + 1] == Block(bs[i].at + HDR + size, false))
  {
    hide Tiles;
    if Room(bs, i) >= size + HDR + MIN_SIZE {
      assert Take(bs, i, size) ==
             bs[..i] + [Block(bs[i].at, true), Block(bs[i].at + HDR + size, false)] + bs[i + 1..];
    }
  }

  lemma TakeOk(bs: seq<Block>, i: nat, size: nat)
    requires HeapOk(bs) && i < |bs| && Fits(bs, i, size) && size >= MIN_SIZE
    ensures var t := Take(bs, i, size);
            HeapOk(t) && t[i] == Block(bs[i].at, true) && Room(t, i) >= size
  {
    if Room(bs, i) >= size + HDR + MIN_SIZE {
      SplitTiles(bs, i, bs[i].at + HDR + size);
      var t := Split(bs, i, bs[i].at + HDR + size);
      assert Take(bs, i, size) == t[i := Block(bs[i].at, true)];
      assert NoTwins(t[i := Block(bs[i].at, true)]);
      Recolour(t, i, true);
    } else {
      Recolour(bs, i, true);
    }
  }

  /** Cut block `i` in two at offset `p`; the second part is free. */
  function Split(bs: seq<Block>, i: nat, p: nat): seq<Block>
    requires i < |bs|
  {
    bs[..i + 1] + [Block(p, false)] + bs[i + 1..]
  }

  lemma SplitTiles(bs: seq<Block>, i: nat, p: nat)
    requires Tiles(bs) && i < |bs|
    requires bs[i].at + HDR + MIN_SIZE <= p && p + HDR + MIN_SIZE <= At(bs, i + 1)
    ensures Tiles(Split(bs, i, p))
    ensures var t := Split(bs, i, p);
            && |t| == |bs| + 1 && t[i + 1] == Block(p, false)
            && (forall j :: 0 <= j <= i ==> t[j] == bs[j])
            && (forall j :: i + 1 < j < |t| ==> t[j] == bs[j - 1])
  {
    var t := Split(bs, i, p);
    forall j | 0 <= j < |t| ensures Room(t, j) >= MIN_SIZE {
      if j < i { assert Room(t, j) == Room(bs, j); }
      if j > i + 1 { assert Room(t, j) == Room(bs, j - 1); }
    }
  }

  /** Marking a block used or free does not move any block. */
  lemma Recolour(bs: seq<Block>, i: nat, used: bool)
    requires Tiles(bs) && i < |bs|
    ensures Tiles(bs[i := Block(bs[i].at, used)])
    ensures forall j :: 0 <= j < |bs| ==> Room(bs[i := Block(bs[i].at, used)], j) == Room(bs, j)
  {
    var t := bs[i := Block(bs[i].at, used)];
    forall j | 0 <= j < |bs| ensures Room(t, j) == Room(bs, j) {
      assert At(t, j + 1) == At(bs, j + 1);
    }
  }

  // ----- release

  /** Dropping the boundary at the start of block `i` keeps the tiling. */
  lemma RemoveTiles(bs: seq<Block>, i: nat)
    requires Tiles(bs) && 0 < i < |bs|
    ensures Tiles(Remove(bs, i))
    ensures var t := Remove(bs, i);
            && |t| == |bs| - 1 && (forall j :: 0 <= j < i ==> t[j] == bs[j])
            && (forall j :: i <= j < |t| ==> t[j] == bs[j + 1])
  {
    var t := Remove(bs, i);
    forall j | 0 <= j < |t| ensures Room(t, j) >= MIN_SIZE {
      if j < i - 1 { assert Room(t, j) == Room(bs, j); }
      if j == i - 1 { assert Room(bs, i - 1) >= MIN_SIZE && Room(bs, i) >= MIN_SIZE; assert At(t, i) == At(bs, i + 1); }
      if j >= i { assert Room(t, j) == Room(bs, j + 1); }
    }
  }

  /** Only block `i` may have a free neighbour besides itself being free. */
  predicate TwinsOnlyAt(bs: seq<Block>, i: nat) {
    forall j :: 0 <= j < |bs| - 1 && j != i && j + 1 != i ==> bs[j].used || bs[j + 1].used
  }

  /** Plugging the holes around a released block restores the heap invariant. */
  lemma PlugOk(bs: seq<Block>, i: nat)
    requires Tiles(bs) && i < |bs| && !bs[i].used && TwinsOnlyAt(bs, i)
    requires i + 2 < |bs| && !bs[i + 1].used ==> bs[i + 2].used
    requires i > 1 && !bs[i - 1].used ==> bs[i - 2].used
    ensures HeapOk(Plug(bs, i))
  {
    var b := if i + 1 < |bs| && !bs[i + 1].used then Remove(bs, i + 1) else bs;
    if i + 1 < |bs| && !bs[i + 1].used {
      RemoveTiles(bs, i + 1);
    }
    assert forall j :: 0 <= j <= i ==> b[j] == bs[j];
    assert TwinsOnlyAt(b, i) && (i + 1 < |b| ==> b[i + 1].used);
    if i > 0 && !b[i - 1].used {
      RemoveTiles(b, i);
    }
  }

  lemma ReleaseOk(bs: seq<Block>, i: nat)
    requires HeapOk(bs) && i < |bs| && bs[i].used
    ensures HeapOk(Release(bs, i))
  {
    Recolour(bs, i, false);
    PlugOk(bs[i := Block(bs[i].at, false)], i);
  }

  /** Nothing worth a block of its own is wasted on an allocation, and no other block is touched. */
  lemma TakeTight(bs: seq<Block>, i: nat, size: nat)
    requires HeapOk(bs) && i < |bs| && Fits(bs, i, size) && size >= MIN_SIZE
    ensures var t := Take(bs, i, size);
            var split := Room(bs, i) >= size + HDR + MIN_SIZE;
            && i < |t| && size <= Room(t, i) < size + HDR + MIN_SIZE
            && (split ==> Room(t, i) == size && |t| == |bs| + 1 && !t[i + 1].used && Room(t, i + 1) == Room(bs, i) - size - HDR)
            && (!split ==> |t| == |bs|)
            && t[..i] == bs[..i] && t[if split then i + 2 else i + 1..] == bs[i + 1..]
  {
    TakeOk(bs, i, size);
    TakeAt(bs, i, size);
  }

  // ----- shrinking

  /** Shrinking gives back all but what is too small for a block of its own: to a free block behind it
      everything, and otherwise as a new free block. */
  lemma ShrinkTight(bs: seq<Block>, i: nat, size: nat)
    requires HeapOk(bs) && i < |bs| && bs[i].used && MIN_SIZE <= size <= Room(bs, i)
    ensures var t := Shrink(bs, i, size);
            var free := i + 1 < |bs| && !bs[i + 1].used;
            && i < |t| && t[i] == bs[i] && size <= Room(t, i) < size + HDR + MIN_SIZE
            && t[..i] == bs[..i]
            && (free && size < Room(bs, i) ==>
                  && Room(t, i) == size && |t| == |bs| && !t[i + 1].used
                  && Room(t, i + 1) == Room(bs, i + 1) + Room(bs, i) - size && t[i + 2..] == bs[i + 2..])
            && (!free && size + HDR + MIN_SIZE <= Room(bs, i) ==>
                  && Room(t, i) == size && |t| == |bs| + 1 && !t[i + 1].used
                  && Room(t, i + 1) == Room(bs, i) - size - HDR && t[i + 2..] == bs[i + 1..])
  {
    ShrinkOk(bs, i, size);
  }

  lemma ShrinkOk(bs: seq<Block>, i: nat, size: nat)
    requires HeapOk(bs) && i < |bs| && bs[i].used && size >= MIN_SIZE
    ensures var t := Shrink(bs, i, size);
            && HeapOk(t) && i < |t| && t[i] == bs[i]
            && (size <= Room(bs, i) ==> size <= Room(t, i) <= Room(bs, i))
  {
    var p := bs[i].at + HDR + size;
    if size >= Room(bs, i) {
    } else if i + 1 < |bs| && !bs[i + 1].used {
      var t := Shrink(bs, i, size);
      assert Room(bs, i + 1) >= MIN_SIZE;
      forall j | 0 <= j < |t| ensures Room(t, j) >= MIN_SIZE {
        assert j != i ==> At(t, j + 1) == At(bs, j + 1) && Room(t, j) >= Room(bs, j);
      }
    } else if size + HDR + MIN_SIZE <= Room(bs, i) {
      SplitTiles(bs, i, p);
    }
  }

  // ----- all runs

  datatype Event = Malloc(size: nat) | Free(i: nat) | Realloc(i: nat, size: nat)

  /** mem_malloc, mem_free and mem_realloc on the block list; a call on a block that is not in
      use is a caller error and not part of the model. */
  function Step(bs: seq<Block>, e: Event): seq<Block> {
    match e
    case Malloc(size) =>
      var f := FirstFit(bs, 0, Padded(size));
      if size == 0 || Padded(size) > MEM_SIZE || f.None? || f.value >= |bs| then bs
      else Take(bs, f.value, Padded(size))
    case Free(i) => if i < |bs| && bs[i].used then Release(bs, i) else bs
    case Realloc(i, size) => if i < |bs| && bs[i].used then Shrink(bs, i, Padded(size)) else bs
  }

  predicate IsRun(hs: seq<seq<Block>>, es: seq<Event>) {
    && |hs| == |es| + 1 && hs[0] == [Block(0, false)]
    && forall i: nat :: i < |es| ==> Follows(hs, es, i)
  }

  predicate Follows(hs: seq<seq<Block>>, es: seq<Event>, i: nat)
    requires |hs| == |es| + 1 && i < |es|
  {
    hs[i + 1] == Step(hs[i], es[i])
  }

  /** The heap invariant holds in every state of every run. */
  lemma {:induction false} RunOk(hs: seq<seq<Block>>, es: seq<Event>, n: nat)
    requires IsRun(hs, es) && n < |hs|
    ensures HeapOk(hs[n])
  {
    if n > 0 {
      RunOk(hs, es, n - 1);
      assert Follows(hs, es, n - 1);
      var bs, e := hs[n - 1], es[n - 1];
      match e {
        case Malloc(size) =>
          FirstFitLowest(bs, 0, Padded(size));
          if FirstFit(bs, 0, Padded(size)).Some? {
            TakeOk(bs, FirstFit(bs, 0, Padded(size)).value, Padded(size));
          }
        case Free(i) => if i < |bs| && bs[i].used { ReleaseOk(bs, i); }
        case Realloc(i, size) => if i < |bs| && bs[i].used { ShrinkOk(bs, i, Padded(size)); }
      }
    }
  }

  /** Freeing what was just allocated gives the old heap back. */
  lemma MallocFree(bs: seq<Block>, i: nat, size: nat)
    requires HeapOk(bs) && i < |bs| && Fits(bs, i, size) && size >= MIN_SIZE
    ensures Release(Take(bs, i, size), i) == bs
  {
    assert i > 0 ==> bs[i - 1].used;
    assert i + 1 < |bs| ==> bs[i + 1].used;
    var t := Take(bs, i, size);
    var u := t[i := Block(t[i].at, false)];
    if Room(bs, i) >= size + HDR + MIN_SIZE {
      assert Remove(u, i + 1) == bs[..i] + [bs[i]] + bs[i + 1..] == bs;
    } else {
      assert u == bs;
    }
  }

  /** The lowest free block with room for `n` bytes, at index `i`, was given out at address `p`, with less
      to spare than a block of its own takes. */
  ghost predicate Granted(bs: seq<Block>, t: seq<Block>, i: nat, n: nat, p: nat) {
    && i < |bs| && i < |t| && !bs[i].used && t[i] == Block(bs[i].at, true) && p == bs[i].at + HDR
    && n <= Room(t, i) < n + HDR + MIN_SIZE
    && forall j :: 0 <= j < i ==> bs[j].used || Room(bs, j) < n
  }

  /** What mem_malloc answers: memory, unless nothing was asked for or no free block is large enough. */
  ghost predicate Answered(bs: seq<Block>, t: seq<Block>, size: nat, r: Option<nat>) {
    var n := if size < MIN_SIZE then MIN_SIZE else size;
    if r.None? then t == bs && (size == 0 || forall j :: 0 <= j < |bs| ==> bs[j].used || Room(bs, j) < n)
    else size > 0 && exists i: nat :: Granted(bs, t, i, n, r.value)
  }

  lemma AnswerOk(bs: seq<Block>, t: seq<Block>, size: nat, r: Option<nat>)
    requires HeapOk(bs) && t == Step(bs, Malloc(size))
    requires var f := FirstFit(bs, 0, Padded(size));
             (r.Some? <==> size > 0 && f.Some?) && (r.Some? ==> f.value < |t| && r.value == t[f.value].at + HDR)
    ensures Answered(bs, t, size, r)
  {
    var n, f := if size < MIN_SIZE then MIN_SIZE else size, FirstFit(bs, 0, Padded(size));
    FirstFitLowest(bs, 0, n);
    hide FirstFit, HeapOk;
    if r.Some? {
      var i := f.value;
      FitsBelow(bs, i, n);
      TakeTight(bs, i, n);
      TakeOk(bs, i, n);
      assert t == Take(bs, i, n);
      forall j | 0 <= j < i ensures bs[j].used || Room(bs, j) < n {
        assert !Fits(bs, j, n);
      }
      GrantedIs(bs, t, i, n, r.value);
      AnsweredIs(bs, t, size, r, i);
    } else if size > 0 {
      forall j | 0 <= j < |bs| ensures bs[j].used || Room(bs, j) < n {
        assert !Fits(bs, j, n);
      }
    }
  }

  lemma AnsweredIs(bs: seq<Block>, t: seq<Block>, size: nat, r: Option<nat>, i: nat)
    requires r.Some? && size > 0 && Granted(bs, t, i, if size < MIN_SIZE then MIN_SIZE else size, r.value)
    ensures Answered(bs, t, size, r)
  {
  }

  lemma GrantedIs(bs: seq<Block>, t: seq<Block>, i: nat, n: nat, p: nat)
    requires i < |bs| && i < |t| && !bs[i].used && t[i] == Block(bs[i].at, true) && p == bs[i].at + HDR
    requires n <= Room(t, i) < n + HDR + MIN_SIZE
    requires forall j :: 0 <= j < i ==> bs[j].used || Room(bs, j) < n
    ensures Granted(bs, t, i, n, p)
  {
  }

  lemma FitsBelow(bs: seq<Block>, i: nat, n: nat)
    requires HeapOk(bs) && i < |bs| && Fits(bs, i, n)
    ensures n <= MEM_SIZE
  {
    Gap(bs, i, i + 1);
  }

  // ----- the lowest free block

  lemma LowestAt(bs: seq<Block>, l: nat, k: nat)
    requires Tiles(bs) && k <= |bs| && At(bs, k) == l && (k < |bs| ==> !bs[k].used)
    requires forall j :: 0 <= j < k ==> bs[j].used
    ensures Lowest(bs, l)
  {
    forall i | 0 <= i < |bs| && bs[i].at < l ensures bs[i].used {
      if k < i { Gap(bs, k, i); }
      if k == |bs| { BelowEnd(bs, i); }
    }
  }

  lemma LowestIndex(bs: seq<Block>, l: nat) returns (k: nat)
    requires Tiles(bs) && Lowest(bs, l)
    ensures k <= |bs| && At(bs, k) == l && (k < |bs| ==> !bs[k].used)
    ensures forall j :: 0 <= j < k ==> bs[j].used
  {
    k :| 0 <= k <= |bs| && At(bs, k) == l && (k < |bs| ==> !bs[k].used);
    forall j | 0 <= j < k ensures bs[j].used {
      Gap(bs, j, k);
    }
  }

  /** Releasing block `i` makes it the lowest free one, unless one below it was free. */
  lemma ReleaseLowest(bs: seq<Block>, i: nat, l: nat)
    requires HeapOk(bs) && i < |bs| && bs[i].used && Lowest(bs, l)
    ensures Lowest(Release(bs, i), if bs[i].at < l then bs[i].at else l)
  {
    var k := LowestIndex(bs, l);
    ReleaseOk(bs, i);
    var t := Release(bs, i);
    if k < i { Gap(bs, k, i); }
    if i < k { Gap(bs, i, k); }
    var u := bs[i := Block(bs[i].at, false)];
    var b := if i + 1 < |u| && !u[i + 1].used then Remove(u, i + 1) else u;
    assert forall j :: 0 <= j <= i ==> b[j] == u[j];
    assert forall j :: 0 <= j < i ==> t[j] == bs[j];
    if k > i {
      assert t[i] == u[i];
      LowestAt(t, bs[i].at, i);
    } else {
      LowestAt(t, l, k);
    }
  }

  /** The new lowest free offset after shrinking: the code's two comparisons. */
  function ShrinkLow(bs: seq<Block>, i: nat, size: nat, l: nat): nat
    requires i < |bs|
  {
    var p := bs[i].at + HDR + size;
    if size >= Room(bs, i) then l
    else if i + 1 < |bs| && !bs[i + 1].used then (if l == bs[i + 1].at then p else l)
    else if size + HDR + MIN_SIZE <= Room(bs, i) then (if p < l then p else l)
    else l
  }

  lemma ShrinkLowest(bs: seq<Block>, i: nat, size: nat, l: nat)
    requires HeapOk(bs) && i < |bs| && bs[i].used && size >= MIN_SIZE && Lowest(bs, l)
    ensures Lowest(Shrink(bs, i, size), ShrinkLow(bs, i, size, l))
  {
    var k := LowestIndex(bs, l);
    ShrinkOk(bs, i, size);
    var t, p := Shrink(bs, i, size), bs[i].at + HDR + size;
    if k < i { Gap(bs, k, i); }
    if i < k { Gap(bs, i, k); }
    if size >= Room(bs, i) {
    } else if i + 1 < |bs| && !bs[i + 1].used {
      if k == i + 1 { LowestAt(t, p, k); } else { LowestAt(t, l, k); }
    } else if size + HDR + MIN_SIZE <= Room(bs, i) {
      if i + 1 < k { Gap(bs, i + 1, k); }
      if k > i { LowestAt(t, p, i + 1); } else { LowestAt(t, l, k); }
    }
  }

  /** Nothing larger than the heap fits, nor does anything fit too near its end. */
  lemma TooBig(bs: seq<Block>, size: nat)
    requires Tiles(bs)
    ensures forall i :: 0 <= i < |bs| && bs[i].at >= MEM_SIZE - size ==> !Fits(bs, i, size)
  {
    forall i | 0 <= i < |bs| && bs[i].at >= MEM_SIZE - size ensures !Fits(bs, i, size) {
      Gap(bs, i, i + 1);
    }
  }

  lemma FirstFitIs(bs: seq<Block>, size: nat, i: nat)
    requires i <= |bs| && (i < |bs| ==> Fits(bs, i, size))
    requires forall j :: 0 <= j < i ==> !Fits(bs, j, size)
    ensures FirstFit(bs, 0, size) == if i < |bs| then Some(i) else None
  {
    FirstFitLowest(bs, 0, size);
  }

  /** Taking block `i` leaves the blocks below it alone. */
  lemma TakeBelow(bs: seq<Block>, i: nat, size: nat, l: nat)
    requires HeapOk(bs) && i < |bs| && Fits(bs, i, size) && size >= MIN_SIZE && Lowest(bs, l)
    ensures var t := Take(bs, i, size);
            i < |t| && t[i].at == bs[i].at
            && (bs[i].at == l ==> forall j :: 0 <= j < i ==> t[j].used)
            && (bs[i].at != l ==> Lowest(t, l))
  {
    var k := LowestIndex(bs, l);
    TakeOk(bs, i, size);
    TakeAt(bs, i, size);
    if k < i { Gap(bs, k, i); }
    if bs[i].at != l {
      LowestAt(Take(bs, i, size), l, k);
    }
  }

  /** A free block right below block `i` is at or above the lowest free one. */
  lemma FreeBelow(bs: seq<Block>, i: nat, l: nat)
    requires Tiles(bs) && i < |bs| && bs[i].used && Lowest(bs, l)
    ensures i > 0 && !bs[i - 1].used ==> l < bs[i].at
    ensures bs[i].at != l
  {
    var k := LowestIndex(bs, l);
    if i > 0 { Gap(bs, i - 1, i); }
    if i < k { Gap(bs, i, k); }
    if k < i { Gap(bs, k, i); }
  }
}
