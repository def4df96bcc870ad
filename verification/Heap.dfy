/** The heap of mem.c: the allocator operating in place on its byte array. */
module Heap {
  import opened Basics
  import opened HeapBlocks
  import opened HeapBytes

  class Mem {
    const ram: array<byte>
    var lfree: nat  // offset of the lowest free block

    ghost var blocks: seq<Block>  // what the headers in the array describe

    ghost predicate Valid()
      reads this, ram
    {
      ram.Length == RAM_LEN && HeapOk(blocks) && Linked(ram[..], blocks) && Lowest(blocks, lfree)
    }

    method SetWord(p: nat, v: nat)
      requires p + 1 < ram.Length && v < 0x1_0000
      modifies ram
      ensures ram[..] == PutWord(old(ram[..]), p, v)
    {
      ram[p], ram[p + 1] := v % 0x100, v / 0x100;
    }

    method SetUsed(p: nat, used: bool)
      requires p + HDR <= ram.Length
      modifies ram
      ensures ram[..] == PutFlag(old(ram[..]), p, used)
    {
      ram[p + 4] := if used then 1 else 0;
    }

    method GetWord(p: nat) returns (v: nat)
      requires p + 1 < ram.Length
      ensures v == Word(ram[..], p)
    {
      v := ram[p] as int + 0x100 * (ram[p + 1] as int);
    }

    /** mem_init */
    constructor ()
      ensures Valid() && fresh(ram) && blocks == [Block(0, false)] && lfree == 0
    {
      ram := new byte[RAM_LEN](_ => 0);
      lfree := 0;
      blocks := [Block(0, false)];
      new;
      SetWord(0, MEM_SIZE);
      SetWord(2, 0);
      SetUsed(0, false);
      SetUsed(MEM_SIZE, true);
      SetWord(MEM_SIZE, MEM_SIZE);
      SetWord(MEM_SIZE + 2, MEM_SIZE);
      assert At(blocks, 0) == 0;
      assert HeaderOf(ram[..], blocks, 0);
    }

    /** Link a free block at `p` between the headers at `q` and `n`. */
    method LinkFree(q: nat, p: nat, n: nat)
      requires ram.Length == RAM_LEN && q <= MEM_SIZE && p <= MEM_SIZE && n <= MEM_SIZE
      modifies ram
      ensures ram[..] == SplitBytes(old(ram[..]), q, p, n)
    {
      hide PutWord, PutFlag;
      SetUsed(p, false);
      SetWord(p, n);
      SetWord(p + 2, q);
      SetWord(q, p);
      if n != MEM_SIZE {
        SetWord(n + 2, p);
      }
    }

    /** Use the free block at `ptr`, splitting it when the remainder can hold data. */
    method TakeBlock(ptr: nat, size: nat, ghost i: nat)
      requires Valid() && i < |blocks| && ptr == blocks[i].at && Fits(blocks, i, size) && size >= MIN_SIZE
      modifies ram, this`blocks
      ensures ram.Length == RAM_LEN && HeapOk(blocks) && Linked(ram[..], blocks)
      ensures blocks == Take(old(blocks), i, size)
      ensures LiveSame(old(ram[..]), ram[..], old(blocks), |old(blocks)|, 0)
    {
      assert HeaderOf(ram[..], blocks, i);
      Away(blocks, i, i);
      TakeOk(blocks, i, size);
      TakeLinked(ram[..], blocks, i, size);
      TakeLive(ram[..], blocks, i, size);
      hide HeapOk, Linked, Lowest, LiveSame, Take, SplitBytes, PutFlag;
      var n := GetWord(ptr);
      if n - (ptr + HDR) >= size + HDR + MIN_SIZE {
        LinkFree(ptr, ptr + HDR + size, n);
      }
      SetUsed(ptr, true);
      blocks := Take(blocks, i, size);
    }

    /** Move lfree to the next free block at or after it. */
    method AdvanceFree(ghost i: nat)
      requires ram.Length == RAM_LEN && HeapOk(blocks) && Linked(ram[..], blocks)
      requires i <= |blocks| && lfree == At(blocks, i) && forall j :: 0 <= j < i ==> blocks[j].used
      modifies this`lfree
      ensures Lowest(blocks, lfree)
    {
      ghost var k := i;
      if i < |blocks| { Away(blocks, i, i); }
      while ram[lfree + 4] != 0 && lfree != MEM_SIZE
        invariant k <= |blocks| && lfree == At(blocks, k) <= MEM_SIZE
        invariant forall j :: 0 <= j < k ==> blocks[j].used
        decreases |blocks| - k
      {
        assert HeaderOf(ram[..], blocks, k);
        Away(blocks, k, k);
        lfree := GetWord(lfree);
        k := k + 1;
      }
      assert k < |blocks| ==> HeaderOf(ram[..], blocks, k);
      LowestAt(blocks, lfree, k);
    }

    /** The search of mem_malloc, from the lowest free block upwards. */
    method FindFit(n: nat) returns (found: bool, ptr: nat, ghost i: nat)
      requires Valid() && MIN_SIZE <= n
      ensures FirstFit(blocks, 0, n) == if found then Some(i) else None
      ensures found <==> FirstFit(blocks, 0, n).Some?
      ensures found ==> i < |blocks| && ptr == blocks[i].at && Fits(blocks, i, n)
    {
      TooBig(blocks, n);
      i := LowestIndex(blocks, lfree);
      found, ptr := false, lfree;
      hide FirstFit, Tiles;
      while ptr < MEM_SIZE - n
        invariant i <= |blocks| && ptr == At(blocks, i)
        invariant forall j :: 0 <= j < i ==> !Fits(blocks, j, n)
        decreases |blocks| - i
      {
        assert HeaderOf(ram[..], blocks, i);
        Away(blocks, i, i);
        var next := GetWord(ptr);
        if ram[ptr + 4] == 0 && next - (ptr + HDR) >= n {
          FirstFitIs(blocks, n, i);
          found := true;
          return;
        }
        ptr := next;
        i := i + 1;
      }
      forall j | 0 <= j < |blocks| ensures !Fits(blocks, j, n) {
        if i < j { Gap(blocks, i, j); }
      }
      FirstFitIs(blocks, n, |blocks|);
    }

    /** mem_malloc: the offset of the data of the lowest fitting block, None when none fits. */
    method Malloc(size: nat) returns (r: Option<nat>)
      requires Valid()
      modifies this, ram
      ensures Valid() && blocks == Step(old(blocks), Event.Malloc(size))
      ensures LiveSame(old(ram[..]), ram[..], old(blocks), |old(blocks)|, 0)
      ensures var f := FirstFit(old(blocks), 0, Padded(size));
              && (r.Some? <==> size > 0 && f.Some?)
              && (r.Some? ==> f.value < |blocks| && blocks[f.value].used && Room(blocks, f.value) >= size
                              && r.value == blocks[f.value].at + HDR)
      ensures Answered(old(blocks), blocks, size, r)
    {
      hide Answered;
      ghost var bs := blocks;
      r := None;
      LiveRefl(ram[..], blocks, |blocks|, 0);
      if size == 0 {
        AnswerOk(bs, blocks, size, r);
        return;
      }
      var n := if size < MIN_SIZE then MIN_SIZE else size;
      if n > MEM_SIZE {
        TooBig(blocks, n);
        FirstFitIs(blocks, n, |blocks|);
        AnswerOk(bs, blocks, size, r);
        return;
      }
      var found, ptr, i := FindFit(n);
      hide FirstFit, Linked, LiveSame;
      if found {
        TakeBelow(blocks, i, n, lfree);
        TakeOk(blocks, i, n);
        TakeBlock(ptr, n, i);
        if ptr == lfree {
          AdvanceFree(i);
        }
        r := Some(ptr + HDR);
      }
      AnswerOk(bs, blocks, size, r);
    }

    /** Let the block at `q` reach up to the one at `n`. */
    method Unlink(q: nat, n: nat)
      requires ram.Length == RAM_LEN && q <= MEM_SIZE && n <= MEM_SIZE
      modifies ram
      ensures ram[..] == MergeBytes(old(ram[..]), q, n)
    {
      hide PutWord;
      SetWord(q, n);
      SetWord(n + 2, q);
    }

    /** The forward half of plug_holes: take in the next block if that is free. */
    method PlugForward(mem: nat, ghost i: nat)
      requires ram.Length == RAM_LEN && Linked(ram[..], blocks)
      requires i < |blocks| && mem == blocks[i].at
      modifies this`lfree, ram
      ensures ram[..] == ForwardBytes(old(ram[..]), blocks, i)
      ensures lfree == if i + 1 < |blocks| && !blocks[i + 1].used && old(lfree) == blocks[i + 1].at then mem else old(lfree)
    {
      assert HeaderOf(ram[..], blocks, i);
      Away(blocks, i, i);
      if i + 1 < |blocks| {
        assert HeaderOf(ram[..], blocks, i + 1);
        Away(blocks, i + 1, i);
      }
      hide Linked, MergeBytes;
      var next := GetWord(mem);
      if mem != next && ram[next + 4] == 0 && next != MEM_SIZE {
        if lfree == next {
          lfree := mem;
        }
        var end := GetWord(next);
        Unlink(mem, end);
      }
    }

    /** The backward half: let a free previous block take in this one. */
    method PlugBackward(mem: nat, ghost i: nat, ghost s: seq<byte>)
      requires ram.Length == RAM_LEN && Linked(s, blocks)
      requires i < |blocks| && mem == blocks[i].at && ram[..] == ForwardBytes(s, blocks, i)
      modifies this`lfree, ram
      ensures ram[..] == PlugBytes(s, blocks, i)
      ensures lfree == if i > 0 && !blocks[i - 1].used && old(lfree) == mem then blocks[i - 1].at else old(lfree)
    {
      hide Linked, Tiles, MergeBytes, ForwardBytes, Word;
      LinkedAt(s, blocks, i);
      ForwardAt(s, blocks, i);
      if i > 0 {
        LinkedAt(s, blocks, i - 1);
        Away(blocks, i, i - 1);
      }
      var prev := GetWord(mem + 2);
      if prev != mem && ram[prev + 4] == 0 {
        if lfree == mem {
          lfree := prev;
        }
        var end := GetWord(mem);
        Unlink(prev, end);
      }
    }

    /** plug_holes around the free block `i` at `mem`. */
    method PlugHoles(mem: nat, ghost i: nat)
      requires ram.Length == RAM_LEN && Linked(ram[..], blocks)
      requires i < |blocks| && mem == blocks[i].at && !blocks[i].used
      requires lfree <= mem && (lfree == mem && i > 0 ==> blocks[i - 1].used)
      modifies this`lfree, ram
      ensures ram[..] == PlugBytes(old(ram[..]), blocks, i) && lfree == old(lfree)
    {
      ghost var s := ram[..];
      Away(blocks, i, i);
      hide Linked, ForwardBytes, PlugBytes;
      PlugForward(mem, i);
      PlugBackward(mem, i, s);
    }

    /** mem_free. A null or foreign pointer is ignored; otherwise it must belong to block `i`. */
    method Free(rmem: Option<nat>, ghost i: nat)
      requires Valid()
      requires rmem.Some? && rmem.value < MEM_SIZE ==>
                 i < |blocks| && blocks[i].used && rmem.value == blocks[i].at + HDR
      modifies this, ram
      ensures Valid()
      ensures blocks == if rmem.Some? && rmem.value < MEM_SIZE then Release(old(blocks), i) else old(blocks)
      ensures LiveSame(old(ram[..]), ram[..], old(blocks), i, 0)
    {
      LiveRefl(ram[..], blocks, i, 0);
      if rmem.None? || rmem.value >= MEM_SIZE {
        return;
      }
      ghost var bs, s := blocks, ram[..];
      var mem := rmem.value - HDR;
      assert HeaderOf(s, bs, i);
      ReleaseOk(bs, i);
      ReleaseLowest(bs, i, lfree);
      ghost var t, a := bs[i := Block(bs[i].at, false)], PutFlag(s, mem, false);
      MarkLinked(s, bs, i, false);
      MarkLive(s, bs, i, false);
      PlugLinked(a, t, i);
      PlugLive(a, t, i);
      LiveTrans(s, a, PlugBytes(a, t, i), bs, i);
      FreeBelow(bs, i, lfree);
      hide Linked, HeapOk, Lowest, LiveSame, PutFlag, PlugBytes, Plug;
      SetUsed(mem, false);
      if mem < lfree {
        lfree := mem;
      }
      blocks := t;
      PlugHoles(mem, i);
      blocks := Plug(t, i);
    }

    /** mem_realloc: shrink block `i`, None when asked to grow. */
    method Realloc(rmem: nat, newsize: nat, ghost i: nat) returns (r: Option<nat>)
      requires Valid()
      requires rmem < MEM_SIZE ==> i < |blocks| && blocks[i].used && rmem == blocks[i].at + HDR
      modifies this, ram
      ensures Valid()
      ensures blocks == if rmem < MEM_SIZE && r.Some? then Shrink(old(blocks), i, Padded(newsize)) else old(blocks)
      ensures r == if Padded(newsize) > MEM_SIZE || (rmem < MEM_SIZE && Padded(newsize) > Room(old(blocks), i))
                   then None else Some(rmem)
      ensures LiveSame(old(ram[..]), ram[..], old(blocks), i, if r.Some? then Padded(newsize) else MEM_SIZE)
      ensures rmem < MEM_SIZE && r.Some? ==>
                i < |blocks| && blocks[i] == old(blocks)[i]
                && Padded(newsize) <= Room(blocks, i) < Padded(newsize) + HDR + MIN_SIZE
    {
      var n := if newsize < MIN_SIZE then MIN_SIZE else newsize;
      LiveRefl(ram[..], blocks, i, n);
      LiveRefl(ram[..], blocks, i, MEM_SIZE);
      if n > MEM_SIZE {
        return None;
      }
      if rmem >= MEM_SIZE {
        return Some(rmem);
      }
      ghost var bs, s := blocks, ram[..];
      var ptr := rmem - HDR;
      assert HeaderOf(s, bs, i);
      Away(bs, i, i);
      ShrinkOk(bs, i, n);
      if n <= Room(bs, i) {
        ShrinkTight(bs, i, n);
      }
      ShrinkLowest(bs, i, n, lfree);
      ShrinkLinked(s, bs, i, n);
      ShrinkLive(s, bs, i, n);
      hide Linked, HeapOk, Lowest, LiveSame;
      var next := GetWord(ptr);
      var size := next - ptr - HDR;
      if n > size {
        return None;
      }
      if n == size {
        return Some(rmem);
      }
      ShrinkBlock(ptr, next, n, i);
      blocks := Shrink(bs, i, n);
      r := Some(rmem);
    }

    /** The relinking of mem_realloc. */
    method ShrinkBlock(ptr: nat, next: nat, n: nat, ghost i: nat)
      requires Valid() && i < |blocks| && blocks[i].used && ptr == blocks[i].at && next == At(blocks, i + 1)
      requires MIN_SIZE <= n < Room(blocks, i)
      modifies this`lfree, ram
      ensures ram[..] == ShrinkBytes(old(ram[..]), blocks, i, n)
      ensures lfree == ShrinkLow(blocks, i, n, old(lfree))
    {
      hide Linked, Tiles, HeapOk, Lowest, SplitBytes;
      LinkedAt(ram[..], blocks, i);
      if i + 1 < |blocks| {
        LinkedAt(ram[..], blocks, i + 1);
      }
      var p := ptr + HDR + n;
      if ram[next + 4] == 0 {
        var nn := GetWord(next);
        if lfree == next {
          lfree := p;
        }
        LinkFree(ptr, p, nn);
      } else if n + HDR + MIN_SIZE <= next - ptr - HDR {
        if p < lfree {
          lfree := p;
        }
        LinkFree(ptr, p, next);
      }
    }
  }
}
