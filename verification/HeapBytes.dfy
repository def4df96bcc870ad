/**
 How mem.c stores its block list: each header lies in the heap array in front of the block's
 data, two 16-bit offsets and a flag. The header updates of each operation, on byte sequences.
 */
module HeapBytes {
  import opened Basics
  import opened HeapBlocks

  const RAM_LEN := MEM_SIZE + 2 * HDR + 1

  function Word(s: seq<byte>, p: nat): nat
    requires p + 1 < |s|
  {
    s[p] as int + 0x100 * (s[p + 1] as int)
  }

  function PutWord(s: seq<byte>, p: nat, v: nat): (r: seq<byte>)
    requires p + 1 < |s| && v < 0x1_0000
    ensures |r| == |s| && Word(r, p) == v
    ensures forall k :: 0 <= k < |s| && k != p && k != p + 1 ==> r[k] == s[k]
  {
    s[p := v % 0x100][p + 1 := v / 0x100]
  }

  function PutFlag(s: seq<byte>, p: nat, used: bool): (r: seq<byte>)
    requires p + HDR <= |s|
    ensures |r| == |s| && r[p + 4] == if used then 1 else 0
    ensures forall k :: 0 <= k < |s| && k != p + 4 ==> r[k] == s[k]
  {
    s[p + 4 := if used then 1 else 0]
  }

  /** The header at `p`. */
  predicate Header(s: seq<byte>, p: nat, next: nat, prev: nat, used: bool)
    requires p + HDR <= |s|
  {
    Word(s, p) == next && Word(s, p + 2) == prev && s[p + 4] == if used then 1 else 0
  }

  function PrevAt(bs: seq<Block>, i: nat): nat
    requires i < |bs|
  {
    if i == 0 then 0 else bs[i - 1].at
  }

  /** The header of block `i` is in place. */
  predicate HeaderOf(s: seq<byte>, bs: seq<Block>, i: nat)
    requires i < |bs|
  {
    && bs[i].at + HDR <= MEM_SIZE <= |s|
    && Header(s, bs[i].at, At(bs, i + 1), PrevAt(bs, i), bs[i].used)
  }

  /** The array holds the headers of `bs`; the end of the heap is marked used. */
  predicate Linked(s: seq<byte>, bs: seq<Block>) {
    && |s| == RAM_LEN && Tiles(bs) && s[MEM_SIZE + 4] == 1
    && forall i :: 0 <= i < |bs| ==> HeaderOf(s, bs, i)
  }

  lemma LinkedAt(s: seq<byte>, bs: seq<Block>, i: nat)
    requires Linked(s, bs) && i < |bs|
    ensures Tiles(bs) && s[MEM_SIZE + 4] == 1 && HeaderOf(s, bs, i)
    ensures bs[i].at + HDR + MIN_SIZE <= At(bs, i + 1) <= MEM_SIZE
  {
    Gap(bs, i, i + 1);
  }

  /** Byte `k` is among the data of block `i`, of the first `keep` bytes of it. */
  predicate IsData(bs: seq<Block>, i: nat, keep: int, k: int) {
    i < |bs| && bs[i].at + HDR <= k < At(bs, i + 1) && k < bs[i].at + HDR + keep
  }

  /** Two different blocks: their headers and data are apart. */
  lemma Away(bs: seq<Block>, i: nat, j: nat)
    requires Tiles(bs) && i < |bs| && j < |bs|
    ensures bs[i].at + HDR + MIN_SIZE <= At(bs, i + 1) <= MEM_SIZE
    ensures i < j ==> At(bs, i + 1) <= bs[j].at
    ensures j < i ==> At(bs, j + 1) <= bs[i].at && bs[j].at + HDR + MIN_SIZE <= bs[i].at
  {
    Gap(bs, i, i + 1);
    if i + 1 < j { Gap(bs, i + 1, j); }
    if j < i { Gap(bs, j, j + 1); }
    if j + 1 < i { Gap(bs, j + 1, i); }
  }

  /** A header is not disturbed by changes elsewhere. */
  lemma HeaderKept(s: seq<byte>, r: seq<byte>, p: nat, next: nat, prev: nat, used: bool)
    requires p + HDR <= |s| == |r| && Header(s, p, next, prev, used)
    requires forall k :: p <= k < p + 5 ==> r[k] == s[k]
    ensures Header(r, p, next, prev, used)
  {
  }

  // ----- marking

  lemma MarkLinked(s: seq<byte>, bs: seq<Block>, i: nat, used: bool)
    requires Linked(s, bs) && i < |bs| && HeaderOf(s, bs, i)
    ensures Linked(PutFlag(s, bs[i].at, used), bs[i := Block(bs[i].at, used)])
  {
    Recolour(bs, i, used);
    var r, t := PutFlag(s, bs[i].at, used), bs[i := Block(bs[i].at, used)];
    hide Tiles;
    forall j | 0 <= j < |t| ensures HeaderOf(r, t, j) {
      assert HeaderOf(s, bs, j);
      assert t[j].at == bs[j].at && At(t, j + 1) == At(bs, j + 1) && PrevAt(t, j) == PrevAt(bs, j);
      if j != i {
        Away(bs, i, j);
        HeaderKept(s, r, bs[j].at, At(bs, j + 1), PrevAt(bs, j), bs[j].used);
      }
    }
  }

  // ----- splitting

  /** A new free header at `p` between `q` and the block at `n`. */
  function SplitBytes(s: seq<byte>, q: nat, p: nat, n: nat): (r: seq<byte>)
    requires |s| == RAM_LEN && q <= MEM_SIZE && p <= MEM_SIZE && n <= MEM_SIZE
    ensures |r| == |s|
  {
    var a := PutWord(PutWord(PutWord(PutFlag(s, p, false), p, n), p + 2, q), q, p);
    if n != MEM_SIZE then PutWord(a, n + 2, p) else a
  }

  lemma SplitBytesAt(s: seq<byte>, q: nat, p: nat, n: nat)
    requires |s| == RAM_LEN && q + HDR <= p && p + HDR <= n <= MEM_SIZE
    ensures var r := SplitBytes(s, q, p, n);
            && (forall k :: 0 <= k < |s| && !(q <= k < q + 2) && !(p <= k < p + 5) && !(n + 2 <= k < n + 4) ==> r[k] == s[k])
            && Header(r, p, n, q, false) && Word(r, q) == p && Word(r, q + 2) == Word(s, q + 2) && r[q + 4] == s[q + 4]
            && Word(r, n) == Word(s, n) && r[n + 4] == s[n + 4]
            && (n != MEM_SIZE ==> Word(r, n + 2) == p)
  {
  }

  lemma SplitLinked(s: seq<byte>, bs: seq<Block>, i: nat, p: nat)
    requires Linked(s, bs) && i < |bs|
    requires bs[i].at + HDR + MIN_SIZE <= p && p + HDR + MIN_SIZE <= At(bs, i + 1) <= MEM_SIZE
    ensures Linked(SplitBytes(s, bs[i].at, p, At(bs, i + 1)), Split(bs, i, p))
  {
    hide SplitBytes, Tiles;
    LinkedAt(s, bs, i);
    var r, t := SplitBytes(s, bs[i].at, p, At(bs, i + 1)), Split(bs, i, p);
    SplitTiles(bs, i, p);
    SplitBytesAt(s, bs[i].at, p, At(bs, i + 1));
    forall j | 0 <= j < |t| ensures HeaderOf(r, t, j) {
      if j <= i {
        assert HeaderOf(s, bs, j);
      }
      if j < i {
        Away(bs, i, j);
        HeaderKept(s, r, bs[j].at, At(bs, j + 1), PrevAt(bs, j), bs[j].used);
      } else if j > i + 1 {
        var o := j - 1;
        Away(bs, i, o);
        assert HeaderOf(s, bs, o);
        if o > i + 1 {
          Away(bs, i + 1, o);
          HeaderKept(s, r, bs[o].at, At(bs, o + 1), PrevAt(bs, o), bs[o].used);
        }
      }
    }
  }

  /** Data of a block in use lie outside every header. */
  lemma NotHeader(bs: seq<Block>, j: nat, keep: int, k: int, i: nat)
    requires Tiles(bs) && IsData(bs, j, keep, k) && i <= |bs|
    ensures k < At(bs, i) || At(bs, i) + HDR <= k
  {
    if i < |bs| {
      Away(bs, j, i);
      Away(bs, i, j);
    } else {
      Away(bs, j, j);
    }
  }

  lemma SplitLive(s: seq<byte>, bs: seq<Block>, i: nat, p: nat, j: nat, k: int)
    requires |s| == RAM_LEN && Tiles(bs) && i < |bs| && IsData(bs, j, MEM_SIZE, k) && (j == i ==> k < p)
    requires bs[i].at + HDR + MIN_SIZE <= p && p + HDR <= At(bs, i + 1) <= MEM_SIZE
    ensures k < RAM_LEN && SplitBytes(s, bs[i].at, p, At(bs, i + 1))[k] == s[k]
  {
    SplitBytesAt(s, bs[i].at, p, At(bs, i + 1));
    NotHeader(bs, j, MEM_SIZE, k, i);
    NotHeader(bs, j, MEM_SIZE, k, i + 1);
    Away(bs, i, j);
    Away(bs, j, i);
  }

  // ----- merging

  /** Unlink the header between `q` and the one at `n`. */
  function MergeBytes(s: seq<byte>, q: nat, n: nat): (r: seq<byte>)
    requires |s| == RAM_LEN && q <= MEM_SIZE && n <= MEM_SIZE
    ensures |r| == |s|
  {
    PutWord(PutWord(s, q, n), n + 2, q)
  }

  lemma MergeBytesAt(s: seq<byte>, q: nat, n: nat)
    requires |s| == RAM_LEN && q + HDR <= n <= MEM_SIZE
    ensures var r := MergeBytes(s, q, n);
            && (forall k :: 0 <= k < |s| && !(q <= k < q + 2) && !(n + 2 <= k < n + 4) ==> r[k] == s[k])
            && Word(r, q) == n && Word(r, q + 2) == Word(s, q + 2) && r[q + 4] == s[q + 4]
            && Word(r, n) == Word(s, n) && r[n + 4] == s[n + 4] && Word(r, n + 2) == q
  {
  }

  lemma MergeLinked(s: seq<byte>, bs: seq<Block>, i: nat)
    requires Linked(s, bs) && 0 < i < |bs| && At(bs, i + 1) <= MEM_SIZE && bs[i - 1].at <= MEM_SIZE
    ensures Linked(MergeBytes(s, bs[i - 1].at, At(bs, i + 1)), Remove(bs, i))
  {
    var q, n := bs[i - 1].at, At(bs, i + 1);
    var r, t := MergeBytes(s, q, n), Remove(bs, i);
    RemoveTiles(bs, i);
    Away(bs, i, i - 1);
    Away(bs, i - 1, i);
    MergeBytesAt(s, q, n);
    hide MergeBytes, Remove, Tiles;
    forall j | 0 <= j < |t| ensures HeaderOf(r, t, j) {
      var o := if j < i then j else j + 1;
      assert HeaderOf(s, bs, o);
      Away(bs, i - 1, o);
      Away(bs, o, i - 1);
      if j < i - 1 || j > i {
        if o > i + 1 { Away(bs, i + 1, o); }
        HeaderKept(s, r, bs[o].at, At(bs, o + 1), PrevAt(bs, o), bs[o].used);
      }
    }
  }

  // ----- moving a free block down

  lemma MoveLinked(s: seq<byte>, bs: seq<Block>, i: nat, p: nat)
    requires Linked(s, bs) && i + 1 < |bs| && !bs[i + 1].used
    requires bs[i].at + HDR + MIN_SIZE <= p < bs[i + 1].at && p + HDR <= At(bs, i + 2) <= MEM_SIZE
    ensures Linked(SplitBytes(s, bs[i].at, p, At(bs, i + 2)), bs[i + 1 := Block(p, false)])
  {
    var q, n := bs[i].at, At(bs, i + 2);
    var r, t := SplitBytes(s, q, p, n), bs[i + 1 := Block(p, false)];
    MoveTiles(bs, i, p);
    Away(bs, i + 1, i);
    SplitBytesAt(s, q, p, n);
    hide SplitBytes, Tiles;
    forall j | 0 <= j < |t| ensures HeaderOf(r, t, j) {
      if j != i + 1 {
        assert HeaderOf(s, bs, j);
        Away(bs, i, j);
        Away(bs, j, i);
        Away(bs, i + 1, j);
        if j < i || j > i + 2 {
          if j > i + 2 { Away(bs, i + 2, j); }
          assert t[j] == bs[j] && At(t, j + 1) == At(bs, j + 1) && PrevAt(t, j) == PrevAt(bs, j);
          HeaderKept(s, r, bs[j].at, At(bs, j + 1), PrevAt(bs, j), bs[j].used);
        }
      }
    }
  }

  lemma MoveTiles(bs: seq<Block>, i: nat, p: nat)
    requires Tiles(bs) && i + 1 < |bs| && bs[i].at + HDR + MIN_SIZE <= p < bs[i + 1].at
    ensures Tiles(bs[i + 1 := Block(p, false)])
  {
    var t := bs[i + 1 := Block(p, false)];
    forall j | 0 <= j < |t| ensures Room(t, j) >= MIN_SIZE {
      assert Room(bs, j) >= MIN_SIZE;
      assert j != i ==> At(t, j + 1) == At(bs, j + 1) && Room(t, j) >= Room(bs, j);
    }
  }

  lemma MoveLive(s: seq<byte>, bs: seq<Block>, i: nat, p: nat, j: nat, k: int)
    requires |s| == RAM_LEN && Tiles(bs) && i + 1 < |bs| && !bs[i + 1].used
    requires IsData(bs, j, MEM_SIZE, k) && j != i + 1 && (j == i ==> k < p)
    requires bs[i].at + HDR + MIN_SIZE <= p < bs[i + 1].at && p + HDR <= At(bs, i + 2) <= MEM_SIZE
    ensures k < RAM_LEN && SplitBytes(s, bs[i].at, p, At(bs, i + 2))[k] == s[k]
  {
    Away(bs, i + 1, i);
    SplitBytesAt(s, bs[i].at, p, At(bs, i + 2));
    NotHeader(bs, j, MEM_SIZE, k, i);
    NotHeader(bs, j, MEM_SIZE, k, i + 2);
    Away(bs, i, j);
    Away(bs, j, i);
    Away(bs, i + 1, j);
    Away(bs, j, i + 1);
  }

  /** Byte `k` is data of block `j` in use; of block `i` only the first `keep` bytes count. */
  predicate LiveByte(bs: seq<Block>, j: nat, i: nat, keep: int, k: int) {
    j < |bs| && bs[j].used && IsData(bs, j, MEM_SIZE, k) && (j == i ==> k < bs[j].at + HDR + keep)
  }

  /** No live byte differs between the two arrays. */
  ghost predicate LiveSame(s: seq<byte>, r: seq<byte>, bs: seq<Block>, i: nat, keep: int) {
    && |s| == |r| == RAM_LEN
    && forall j, k :: LiveByte(bs, j, i, keep, k) ==> k < RAM_LEN && r[k] == s[k]
  }

  lemma MarkLive(s: seq<byte>, bs: seq<Block>, i: nat, used: bool)
    requires |s| == RAM_LEN && Tiles(bs) && i < |bs| && bs[i].at + HDR <= MEM_SIZE
    ensures LiveSame(s, PutFlag(s, bs[i].at, used), bs, |bs|, 0)
  {
    var r := PutFlag(s, bs[i].at, used);
    hide PutFlag;
    forall j, k | LiveByte(bs, j, |bs|, 0, k) ensures k < RAM_LEN && r[k] == s[k] {
      NotHeader(bs, j, MEM_SIZE, k, i);
      Away(bs, j, j);
    }
  }

  // ----- the byte updates of whole operations

  function TakeBytes(s: seq<byte>, bs: seq<Block>, i: nat, size: nat): seq<byte>
    requires |s| == RAM_LEN && Tiles(bs) && i < |bs| && bs[i].at + HDR <= At(bs, i + 1) <= MEM_SIZE
  {
    var a := if Room(bs, i) >= size + HDR + MIN_SIZE
             then SplitBytes(s, bs[i].at, bs[i].at + HDR + size, At(bs, i + 1)) else s;
    PutFlag(a, bs[i].at, true)
  }

  lemma TakeLinked(s: seq<byte>, bs: seq<Block>, i: nat, size: nat)
    requires Linked(s, bs) && i < |bs| && Fits(bs, i, size) && size >= MIN_SIZE
    requires bs[i].at + HDR <= At(bs, i + 1) <= MEM_SIZE
    ensures Linked(TakeBytes(s, bs, i, size), Take(bs, i, size))
  {
    var p := bs[i].at + HDR + size;
    if Room(bs, i) >= size + HDR + MIN_SIZE {
      SplitLinked(s, bs, i, p);
      var a, t := SplitBytes(s, bs[i].at, p, At(bs, i + 1)), Split(bs, i, p);
      assert t[i] == bs[i] && Take(bs, i, size) == t[i := Block(bs[i].at, true)];
      assert HeaderOf(a, t, i);
      MarkLinked(a, t, i, true);
    } else {
      assert HeaderOf(s, bs, i);
      MarkLinked(s, bs, i, true);
    }
  }

  lemma TakeLive(s: seq<byte>, bs: seq<Block>, i: nat, size: nat)
    requires |s| == RAM_LEN && Tiles(bs) && i < |bs| && Fits(bs, i, size) && size >= MIN_SIZE
    requires bs[i].at + HDR <= At(bs, i + 1) <= MEM_SIZE
    ensures LiveSame(s, TakeBytes(s, bs, i, size), bs, |bs|, 0)
  {
    var r := TakeBytes(s, bs, i, size);
    hide PutFlag, SplitBytes;
    forall j, k | LiveByte(bs, j, |bs|, 0, k) ensures k < RAM_LEN && r[k] == s[k] {
      NotHeader(bs, j, MEM_SIZE, k, i);
      Away(bs, j, j);
      if Room(bs, i) >= size + HDR + MIN_SIZE {
        SplitLive(s, bs, i, bs[i].at + HDR + size, j, k);
      }
    }
  }

  /** The first half of plug_holes: unlink a free successor. */
  function ForwardBytes(s: seq<byte>, bs: seq<Block>, i: nat): (r: seq<byte>)
    requires Linked(s, bs) && i < |bs|
    ensures |r| == RAM_LEN
  {
    if i + 1 < |bs| && !bs[i + 1].used then
      assert HeaderOf(s, bs, i) && HeaderOf(s, bs, i + 1);
      assert At(bs, i + 2) <= MEM_SIZE by { Away(bs, i + 1, i); }
      MergeBytes(s, bs[i].at, At(bs, i + 2))
    else s
  }

  /** Where block `i` ends once a free successor has been taken in. */
  function PlugEnd(bs: seq<Block>, i: nat): nat
    requires i < |bs|
  {
    if i + 1 < |bs| && !bs[i + 1].used then At(bs, i + 2) else At(bs, i + 1)
  }

  lemma ForwardAt(s: seq<byte>, bs: seq<Block>, i: nat)
    requires Linked(s, bs) && i < |bs|
    ensures bs[i].at + HDR <= PlugEnd(bs, i) <= MEM_SIZE
    ensures var r := ForwardBytes(s, bs, i);
            && Word(r, bs[i].at) == PlugEnd(bs, i) && Word(r, bs[i].at + 2) == PrevAt(bs, i)
            && forall k :: 0 <= k < bs[i].at ==> r[k] == s[k]
  {
    assert HeaderOf(s, bs, i);
    Away(bs, i, i);
    if i + 1 < |bs| && !bs[i + 1].used {
      assert HeaderOf(s, bs, i + 1);
      Away(bs, i + 1, i);
      MergeBytesAt(s, bs[i].at, At(bs, i + 2));
    }
  }

  /** plug_holes: then let a free predecessor take the block in. */
  function PlugBytes(s: seq<byte>, bs: seq<Block>, i: nat): seq<byte>
    requires Linked(s, bs) && i < |bs|
  {
    var a := ForwardBytes(s, bs, i);
    assert PlugEnd(bs, i) <= MEM_SIZE by { ForwardAt(s, bs, i); }
    if i > 0 && !bs[i - 1].used then
      assert HeaderOf(s, bs, i - 1);
      MergeBytes(a, bs[i - 1].at, PlugEnd(bs, i))
    else a
  }

  lemma PlugLinked(s: seq<byte>, bs: seq<Block>, i: nat)
    requires Linked(s, bs) && i < |bs|
    ensures Linked(PlugBytes(s, bs, i), Plug(bs, i))
  {
    var fwd := i + 1 < |bs| && !bs[i + 1].used;
    var b, a := bs, s;
    Away(bs, i, i);
    if fwd {
      Away(bs, i + 1, i);
      MergeLinked(s, bs, i + 1);
      b, a := Remove(bs, i + 1), MergeBytes(s, bs[i].at, At(bs, i + 2));
    }
    assert b[..i + 1] == bs[..i + 1];
    assert forall j :: 0 <= j <= i ==> b[j] == bs[..i + 1][j];
    assert At(b, i + 1) == if fwd then At(bs, i + 2) else At(bs, i + 1);
    if i > 0 && !bs[i - 1].used {
      assert HeaderOf(s, bs, i - 1);
      MergeLinked(a, b, i);
    }
  }

  lemma PlugLive(s: seq<byte>, bs: seq<Block>, i: nat)
    requires Linked(s, bs) && i < |bs| && !bs[i].used
    ensures LiveSame(s, PlugBytes(s, bs, i), bs, |bs|, 0)
  {
    var fwd, r := i + 1 < |bs| && !bs[i + 1].used, PlugBytes(s, bs, i);
    Away(bs, i, i);
    if fwd { Away(bs, i + 1, i); }
    forall j, k | LiveByte(bs, j, |bs|, 0, k) ensures k < RAM_LEN && r[k] == s[k] {
      Away(bs, j, j);
      NotHeader(bs, j, MEM_SIZE, k, i);
      NotHeader(bs, j, MEM_SIZE, k, if fwd then i + 2 else i + 1);
      if fwd { MergeBytesAt(s, bs[i].at, At(bs, i + 2)); }
      if i > 0 && !bs[i - 1].used {
        Away(bs, i, i - 1);
        NotHeader(bs, j, MEM_SIZE, k, i - 1);
        MergeBytesAt(if fwd then MergeBytes(s, bs[i].at, At(bs, i + 2)) else s, bs[i - 1].at, if fwd then At(bs, i + 2) else At(bs, i + 1));
      }
      hide MergeBytes;
    }
  }

  function ShrinkBytes(s: seq<byte>, bs: seq<Block>, i: nat, size: nat): seq<byte>
    requires Linked(s, bs) && i < |bs|
  {
    assert HeaderOf(s, bs, i);
    assert At(bs, i + 1) <= MEM_SIZE by { Away(bs, i, i); }
    var p := bs[i].at + HDR + size;
    if size >= Room(bs, i) then s
    else if i + 1 < |bs| && !bs[i + 1].used then
      assert At(bs, i + 2) <= MEM_SIZE by { Away(bs, i + 1, i); }
      SplitBytes(s, bs[i].at, p, At(bs, i + 2))
    else if size + HDR + MIN_SIZE <= Room(bs, i) then SplitBytes(s, bs[i].at, p, At(bs, i + 1))
    else s
  }

  lemma ShrinkLinked(s: seq<byte>, bs: seq<Block>, i: nat, size: nat)
    requires Linked(s, bs) && i < |bs| && size >= MIN_SIZE
    ensures Linked(ShrinkBytes(s, bs, i, size), Shrink(bs, i, size))
  {
    var p := bs[i].at + HDR + size;
    Away(bs, i, i);
    if size >= Room(bs, i) {
    } else if i + 1 < |bs| && !bs[i + 1].used {
      Away(bs, i + 1, i);
      MoveLinked(s, bs, i, p);
    } else if size + HDR + MIN_SIZE <= Room(bs, i) {
      SplitLinked(s, bs, i, p);
    }
  }

  /** Shrinking keeps the first `size` bytes of its block and all other live data. */
  lemma ShrinkLive(s: seq<byte>, bs: seq<Block>, i: nat, size: nat)
    requires Linked(s, bs) && i < |bs| && size >= MIN_SIZE
    ensures LiveSame(s, ShrinkBytes(s, bs, i, size), bs, i, size)
  {
    var p, r := bs[i].at + HDR + size, ShrinkBytes(s, bs, i, size);
    Away(bs, i, i);
    hide SplitBytes, Linked;
    forall j, k | LiveByte(bs, j, i, size, k) ensures k < RAM_LEN && r[k] == s[k] {
      Away(bs, j, j);
      if size >= Room(bs, i) {
      } else if i + 1 < |bs| && !bs[i + 1].used {
        Away(bs, i + 1, i);
        MoveLive(s, bs, i, p, j, k);
      } else if size + HDR + MIN_SIZE <= Room(bs, i) {
        SplitLive(s, bs, i, p, j, k);
      }
    }
  }

  lemma LiveRefl(s: seq<byte>, bs: seq<Block>, i: nat, keep: int)
    requires |s| == RAM_LEN && Tiles(bs)
    ensures LiveSame(s, s, bs, i, keep)
  {
    forall j, k | LiveByte(bs, j, i, keep, k) ensures k < RAM_LEN {
      Away(bs, j, j);
    }
  }

  /** Two updates in a row keep live what both keep. */
  lemma LiveTrans(s: seq<byte>, a: seq<byte>, r: seq<byte>, bs: seq<Block>, i: nat)
    requires i < |bs| && LiveSame(s, a, bs, |bs|, 0)
    requires LiveSame(a, r, bs[i := Block(bs[i].at, false)], |bs|, 0)
    ensures LiveSame(s, r, bs, i, 0)
  {
    var t := bs[i := Block(bs[i].at, false)];
    forall j: nat, k: int | LiveByte(bs, j, i, 0, k) ensures k < RAM_LEN && r[k] == s[k] {
      assert j != i && At(t, j + 1) == At(bs, j + 1);
      assert LiveByte(bs, j, |bs|, 0, k) && LiveByte(t, j, |bs|, 0, k);
    }
  }
}
