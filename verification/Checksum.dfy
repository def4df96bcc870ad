/**
 The Internet checksum of inet_chksum.c: three algorithms for a flat buffer, and the versions
 for buffer chains. Accumulators are 32-bit words that never overflow.
 */
module Checksum {
  import opened Basics
  import opened OnesSum

  /** The accumulation of version 1: octet pairs in network order, a last octet in the high place. */
  method SumNetworkOrder(data: seq<byte>) returns (acc: u32)
    requires |data| <= 0xffff
    ensures acc == Weigh(data, true)
  {
    hide Weigh;
    acc := 0;
    var i := 0;
    WeighNone(data);
    while |data| - i > 1
      invariant 0 <= i <= |data| && i % 2 == 0
      invariant acc == Weigh(data[..i], true) <= 0xffff * (i / 2)
    {
      WeighStep(data, i);
      var src := data[i] as int * 0x100 + data[i + 1] as int;
      acc := acc + src;
      i := i + 2;
    }
    if |data| - i > 0 {
      WeighLast(data, i);
      acc := acc + data[i] as int * 0x100;
    } else {
      assert data[..i] == data;
    }
  }

  /** Version 1 of lwip_standard_chksum: the folded sum, its bytes swapped. */
  method Standard1(data: seq<byte>) returns (r: u16)
    requires |data| <= 0xffff
    ensures r == Sum(data)
  {
    hide Weigh, Swap, Fold, Same;
    var acc := SumNetworkOrder(data);
    FoldSame(acc);
    FoldSame(Fold(acc));
    var f := Fold(acc);
    if f >= 0x1_0000 {
      f := Fold(f);
      SameTrans(f, Fold(acc), acc);
    }
    SwapSame(f);
    Swapped(f, acc, data);
    r := Swap(f);
  }

  lemma Swapped(f: nat, acc: nat, data: seq<byte>)
    requires f <= 0xffff && acc == Weigh(data, true)
    requires Same(f, acc)
    ensures Swap(f) == Sum(data)
  {
    SwapSame(f);
    SameTimes(f, acc);
    WeighOther(data, true);
    SameCanon(Swap(f), Weigh(data, false));
  }

  lemma WeighNone(data: seq<byte>)
    ensures Weigh(data[..0], true) == 0 && Weigh(data[..0], false) == 0
  {
  }

  /** The 16-bit loop of version 2: host-order words, leaving at most one byte. */
  method SumHostOrder(data: seq<byte>) returns (sum: u32)
    requires |data| <= 0x2_0000
    ensures sum == Weigh(data[..|data| / 2 * 2], false) <= 0xffff * (|data| / 2)
  {
    hide Weigh;
    sum := 0;
    var i := 0;
    WeighNone(data);
    while |data| - i > 1
      invariant 0 <= i <= |data| && i % 2 == 0
      invariant sum == Weigh(data[..i], false) <= 0xffff * (i / 2)
    {
      WeighStep(data, i);
      sum := sum + data[i] as int + data[i + 1] as int * 0x100;
      i := i + 2;
    }
  }

  lemma WeighTail(data: seq<byte>)
    ensures var n := |data| / 2 * 2;
            Weigh(data, false) == Weigh(data[..n], false) + if n < |data| then data[n] as int else 0
  {
    if |data| % 2 == 1 {
      WeighLast(data, |data| - 1);
    } else {
      assert data[..|data|] == data;
    }
  }

  /** Version 2: words in host order from an even address on; `odd` is the parity of the start. */
  method Standard2(data: seq<byte>, odd: bool) returns (r: u16)
    requires |data| <= 0x2_0000
    ensures r == Sum(data)
  {
    hide Weigh, Same;
    var t: u16, rest := 0, data;
    if odd && |data| > 0 {
      t := data[0] as int * 0x100;
      rest := data[1..];
    }
    var sum := SumHostOrder(rest);
    WeighTail(rest);
    if |rest| % 2 == 1 {
      t := t + rest[|rest| - 1] as int;
    }
    sum := sum + t;
    SameRefl(sum);
    r := Finish(data, sum, odd);
  }

  lemma SameRefl(a: nat)
    ensures Same(a, a)
  {
  }

  /** The common end: fold twice, swap for an odd start. */
  method Finish(data: seq<byte>, sum: u32, odd: bool) returns (r: u16)
    requires Same(sum, if odd && data != [] then 0x100 * data[0] as int + Weigh(data[1..], false) else Weigh(data, false))
    ensures r == Sum(data)
  {
    FoldSame(sum);
    FoldSame(Fold(sum));
    r := Fold(Fold(sum));
    if odd {
      if data != [] {
        OddStart(data, r);
      }
      r := Swap(r);
    } else {
      SameCanon(r, Weigh(data, false));
    }
  }

  /** The little-endian 32-bit word at `i`. */
  function Word32(data: seq<byte>, i: nat): u32
    requires i + 4 <= |data|
  {
    data[i] as int + 0x100 * data[i + 1] as int + 0x1_0000 * data[i + 2] as int + 0x100_0000 * data[i + 3] as int
  }

  /** A 32-bit word has the one's-complement value of its two halves. */
  lemma Word32Step(data: seq<byte>, i: nat)
    requires i + 4 <= |data| && i % 2 == 0
    ensures Same(Weigh(data[..i], false) + Word32(data, i), Weigh(data[..i + 4], false))
  {
    WeighStep(data, i);
    WeighStep(data, i + 2);
    var h := data[i + 2] as int + 0x100 * data[i + 3] as int;
    assert Weigh(data[..i], false) + Word32(data, i) == Weigh(data[..i + 4], false) + M * h;
    AddMultiple(Weigh(data[..i + 4], false), h);
  }

  /** 32-bit addition with the carry added back. */
  method AddCarry(a: u32, w: u32) returns (r: u32)
    ensures Same(r, a + w)
  {
    r := (a + w) % 0x1_0000_0000;
    if r < a {
      AddMultiple(r + 1, 0x1_0001);
      r := r + 1;
    }
  }

  lemma SameTrans(a: nat, b: nat, c: nat)
    requires Same(a, b) && Same(b, c)
    ensures Same(a, c)
  {
  }

  /** The inner loop of version 3: eight bytes at a time. */
  method SumEights(data: seq<byte>, start: nat, initial: u32) returns (sum: u32, i: nat)
    requires start <= |data| && start % 2 == 0 && Same(initial, Weigh(data[..start], false))
    ensures start <= i <= |data| && |data| - i < 8 && i % 2 == 0
    ensures Same(sum, Weigh(data[..i], false))
  {
    hide Weigh, Same, Word32;
    sum, i := initial, start;
    while |data| - i > 7
      invariant start <= i <= |data| && i % 2 == 0
      invariant Same(sum, Weigh(data[..i], false))
    {
      Word32Step(data, i);
      Word32Step(data, i + 4);
      var tmp := AddCarry(sum, Word32(data, i));
      AddedWord(sum, tmp, Weigh(data[..i], false), Word32(data, i), Weigh(data[..i + 4], false));
      var next := AddCarry(tmp, Word32(data, i + 4));
      AddedWord(tmp, next, Weigh(data[..i + 4], false), Word32(data, i + 4), Weigh(data[..i + 8], false));
      sum := next;
      i := i + 8;
    }
  }

  lemma AddedWord(sum: nat, next: nat, w: nat, x: nat, w': nat)
    requires Same(sum, w) && Same(next, sum + x) && Same(w + x, w')
    ensures Same(next, w')
  {
    SameRefl(x);
    SameAdd(sum, w, x, x);
  }

  /** The last words of version 3, fewer than four. */
  method SumRest(data: seq<byte>, start: nat, initial: u32) returns (sum: u32)
    requires start <= |data| && |data| - start < 8 && start % 2 == 0 && initial <= 0x1_fffe
    requires Same(initial, Weigh(data[..start], false))
    ensures Same(sum, Weigh(data[..|data| / 2 * 2], false)) && sum <= 0x10_0000
  {
    hide Weigh, Same;
    var i := start;
    sum := initial;
    while |data| - i > 1
      invariant start <= i <= |data| && i % 2 == 0
      invariant Same(sum, Weigh(data[..i], false)) && sum <= 0x1_fffe + 0xffff * (i - start)
    {
      var w := data[i] as int + data[i + 1] as int * 0x100;
      WeighStep(data, i);
      SameRefl(w);
      SameAdd(sum, Weigh(data[..i], false), w, w);
      sum := sum + w;
      i := i + 2;
    }
  }

  /** Version 3: aligned 32-bit words with end-around carry; `addr` is the start address. */
  method Standard3(data: seq<byte>, addr: nat) returns (r: u16)
    ensures r == Sum(data)
  {
    hide Weigh, Same, Fold;
    var odd := addr % 2 == 1;
    var t: u16, rest, at := 0, data, addr;
    if odd && |data| > 0 {
      t := data[0] as int * 0x100;
      rest, at := data[1..], addr + 1;
    }
    WeighNone(rest);
    SameRefl(0);
    var sum: u32, i := 0, 0;
    if at % 4 != 0 && |rest| > 1 {
      WeighStep(rest, 0);
      sum := rest[0] as int + rest[1] as int * 0x100;
      SameRefl(sum);
      i := 2;
    }
    sum, i := SumEights(rest, i, sum);
    FoldSame(sum);
    SameTrans(Fold(sum), sum, Weigh(rest[..i], false));
    sum := SumRest(rest, i, Fold(sum));
    WeighTail(rest);
    if |rest| % 2 == 1 {
      t := t + rest[|rest| - 1] as int;
    }
    SameRefl(t);
    SameAdd(sum, Weigh(rest[..|rest| / 2 * 2], false), t, t);
    sum := sum + t;
    r := Finish(data, sum, odd);
  }

  // ----- buffer chains

  /** One more buffer in the accumulator: before it, the sum so far weighed from the parity the
      bytes so far have; after it and the swap, the same for all bytes including this buffer. */
  lemma PieceStep(p: seq<byte>, q: seq<byte>, acc: nat, folded: nat)
    requires acc <= 0xffff && Same(acc, Weigh(p, |p| % 2 == 1))
    requires folded <= 0xffff && Same(folded, acc + Sum(q))
    ensures Same(if |q| % 2 == 1 then Swap(folded) else folded, Weigh(p + q, |p + q| % 2 == 1))
  {
    hide Weigh, Swap, Same, Canon;
    var odd := |p| % 2 == 1;
    assert (odd != (|q| % 2 == 1)) == (|p + q| % 2 == 1);
    CanonSame(Weigh(q, false));
    SameAdd(acc, Weigh(p, odd), Sum(q), Weigh(q, false));
    WeighConcat(p, q, odd);
    SameTrans(folded, acc + Sum(q), Weigh(p + q, odd));
    if |q| % 2 == 1 {
      SwapSame(folded);
      SameTimes(folded, Weigh(p + q, odd));
      WeighOther(p + q, odd);
      SameMeet(Swap(folded), 0x100 * folded, 0x100 * Weigh(p + q, odd), Weigh(p + q, !odd));
    }
  }

  lemma SameMeet(a: nat, b: nat, c: nat, d: nat)
    requires Same(a, b) && Same(b, c) && Same(d, c)
    ensures Same(a, d)
  {
  }

  /** The loop inet_chksum_pbuf and inet_chksum_pseudo share, up to the undoing of the swap. */
  method SumChain(chain: seq<seq<byte>>) returns (acc: u32)
    requires forall i :: 0 <= i < |chain| ==> |chain[i]| <= 0xffff
    ensures acc == Sum(Flat(chain))
  {
    hide Weigh, Swap, Fold, Same, Flat, Canon;
    acc := 0;
    var swapped, i := false, 0;
    EmptySum();
    while i < |chain|
      invariant 0 <= i <= |chain| && acc <= 0xffff
      invariant swapped == (|Flat(chain[..i])| % 2 == 1)
      invariant Same(acc, Weigh(Flat(chain[..i]), swapped))
    {
      FlatTo(chain, i);
      var s := Standard1(chain[i]);
      FoldSame(acc + s);
      PieceStep(Flat(chain[..i]), chain[i], acc, Fold(acc + s));
      acc := Fold(acc + s);
      if |chain[i]| % 2 != 0 {
        swapped := !swapped;
        SwapSame(acc);
        acc := Swap(acc);
      }
      i := i + 1;
    }
    assert chain[..i] == chain;
    if swapped {
      UnswapSum(acc, Flat(chain));
      acc := Swap(acc);
    } else {
      SameCanon(acc, Weigh(Flat(chain), false));
    }
  }

  lemma EmptySum()
    ensures Same(0, Weigh([], false)) && Flat([]) == [] && forall c: seq<seq<byte>> :: c[..0] == []
  {
  }

  lemma UnswapSum(acc: nat, b: seq<byte>)
    requires acc <= 0xffff && Same(acc, Weigh(b, true))
    ensures Swap(acc) == Sum(b)
  {
    SwapSame(acc);
    SameTimes(acc, Weigh(b, true));
    WeighOther(b, true);
    SameCanon(Swap(acc), Weigh(b, false));
  }

  /** inet_chksum: the inverted sum of a flat buffer. */
  method InetChksum(data: seq<byte>) returns (r: u16)
    requires |data| <= 0xffff
    ensures r == 0xffff - Sum(data)
  {
    var s := Standard1(data);
    r := 0xffff - s;
  }

  /** inet_chksum_pbuf: for a chain, however its buffers are cut. */
  method InetChksumPbuf(chain: seq<seq<byte>>) returns (r: u16)
    requires forall i :: 0 <= i < |chain| ==> |chain[i]| <= 0xffff
    ensures r == 0xffff - Sum(Flat(chain))
  {
    var acc := SumChain(chain);
    r := 0xffff - acc;
  }

  /** The pseudo header of section 3.1 of RFC 793: addresses, zero, protocol, length. */
  function PseudoHeader(src: seq<byte>, dest: seq<byte>, proto: byte, len: u16): seq<byte>
    requires |src| == 4 && |dest| == 4
  {
    src + dest + [0, proto, len / 0x100, len % 0x100]
  }

  function Halves(a: seq<byte>): nat
    requires |a| == 4
  {
    a[0] as int + 0x100 * a[1] as int + (a[2] as int + 0x100 * a[3] as int)
  }

  lemma WeighFour(a: seq<byte>)
    requires |a| == 4
    ensures Weigh(a, false) == Halves(a)
  {
    WeighNone(a);
    WeighStep(a, 0);
    WeighStep(a, 2);
    assert a[..4] == a;
  }

  lemma WeighPseudo(src: seq<byte>, dest: seq<byte>, proto: byte, len: u16, b: seq<byte>)
    requires |src| == 4 && |dest| == 4
    ensures Weigh(PseudoHeader(src, dest, proto, len) + b, false) ==
            Halves(src) + Halves(dest) + 0x100 * proto + (len / 0x100 + 0x100 * (len % 0x100)) + Weigh(b, false)
  {
    var t: seq<byte> := [0, proto, len / 0x100, len % 0x100];
    WeighConcat(PseudoHeader(src, dest, proto, len), b, false);
    WeighConcat(src + dest, t, false);
    WeighConcat(src, dest, false);
    WeighFour(src);
    WeighFour(dest);
    WeighFour(t);
  }

  /** inet_chksum_pseudo: the checksum of pseudo header and chain, as one flat buffer. */
  method InetChksumPseudo(chain: seq<seq<byte>>, src: seq<byte>, dest: seq<byte>, proto: byte, len: u16)
    returns (r: u16)
    requires forall i :: 0 <= i < |chain| ==> |chain[i]| <= 0xffff
    requires |src| == 4 && |dest| == 4
    ensures r == 0xffff - Sum(PseudoHeader(src, dest, proto, len) + Flat(chain))
  {
    hide Weigh, Fold, Same, Canon;
    var acc := SumChain(chain);
    ghost var data := Flat(chain);
    CanonSame(Weigh(data, false));
    WeighPseudo(src, dest, proto, len, data);
    ghost var header := Halves(src) + Halves(dest) + 0x100 * proto + (len / 0x100 + 0x100 * (len % 0x100));
    SameRefl(header);
    SameAdd(acc, Weigh(data, false), header, header);
    acc := acc + (src[0] as int + 0x100 * src[1] as int);
    acc := acc + (src[2] as int + 0x100 * src[3] as int);
    acc := acc + (dest[0] as int + 0x100 * dest[1] as int);
    acc := acc + (dest[2] as int + 0x100 * dest[3] as int);
    acc := acc + 0x100 * proto;
    acc := acc + (len / 0x100 + 0x100 * (len % 0x100));
    FoldSame(acc);
    FoldSame(Fold(acc));
    SameTrans(Fold(acc), acc, Weigh(PseudoHeader(src, dest, proto, len) + data, false));
    SameTrans(Fold(Fold(acc)), Fold(acc), Weigh(PseudoHeader(src, dest, proto, len) + data, false));
    SameCanon(Fold(Fold(acc)), Weigh(PseudoHeader(src, dest, proto, len) + data, false));
    r := 0xffff - Fold(Fold(acc));
  }
}
