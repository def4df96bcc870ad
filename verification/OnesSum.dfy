/** One's-complement sums of byte sequences: the arithmetic behind the Internet checksum. */
module OnesSum {
  import opened Basics

  const M := 0xffff

  /** Bytes weighted 1, 256, 1, 256, ... (or starting with 256): the sum of their
      little-endian 16-bit words, an odd last byte padded with zero. */
  function Weigh(b: seq<byte>, odd: bool): nat {
    if b == [] then 0 else (if odd then 0x100 * b[0] as int else b[0] as int) + Weigh(b[1..], !odd)
  }

  /** The 16-bit one's-complement representative of a sum: 0 only for 0. */
  function Canon(x: nat): (r: nat)
    ensures r <= 0xffff
  {
    if x == 0 then 0 else 1 + (x - 1) % M
  }

  /** The Internet sum of a byte sequence (section 1 of RFC 1071), not inverted. */
  function Sum(b: seq<byte>): nat {
    Canon(Weigh(b, false))
  }

  /** FOLD_U32T */
  function Fold(u: nat): nat {
    u / 0x1_0000 + u % 0x1_0000
  }

  /** SWAP_BYTES_IN_WORD */
  function Swap(w: nat): nat {
    (w % 0x100) * 0x100 + (w / 0x100) % 0x100
  }

  /** Same one's-complement value: congruent modulo 65535, and zero together. */
  predicate Same(a: nat, b: nat) {
    a % M == b % M && (a == 0 <==> b == 0)
  }

  lemma SameCanon(a: nat, b: nat)
    requires Same(a, b)
    ensures Canon(a) == Canon(b)
    ensures a <= 0xffff ==> a == Canon(b)
  {
    if a > 0 {
      assert (a - 1) % M == (b - 1) % M;
    }
  }

  lemma CanonSame(x: nat)
    ensures Same(Canon(x), x)
  {
  }

  lemma SameAdd(a: nat, b: nat, c: nat, d: nat)
    requires Same(a, b) && Same(c, d)
    ensures Same(a + c, b + d)
  {
    var k, l := a / M - b / M, c / M - d / M;
    assert a == b + M * k && c == d + M * l;
    AddMultiple(b + d, k + l);
  }

  lemma FoldSame(u: nat)
    ensures Same(Fold(u), u)
    ensures u <= 0x1_fffe ==> Fold(u) <= 0xffff
    ensures u <= 0xffff_ffff ==> Fold(u) <= 0x1_fffe
  {
    assert u == Fold(u) + M * (u / 0x1_0000);
    AddMultiple(Fold(u), u / 0x1_0000);
  }

  lemma AddMultiple(x: int, k: int)
    ensures (x + M * k) % M == x % M
  {
    var y := x + M * k;
    assert y == y / M * M + y % M && x == x / M * M + x % M;
    var d := y / M - x / M - k;
    assert d * M == x % M - y % M;
    assert d == 0;
  }

  /** Swapping the bytes of a 16-bit word multiplies by 256. */
  lemma SwapSame(w: nat)
    requires w <= 0xffff
    ensures Swap(w) <= 0xffff && Same(Swap(w), 0x100 * w)
  {
    var h, l := w / 0x100, w % 0x100;
    assert w == 0x100 * h + l && h < 0x100;
    assert h % 0x100 == h;
    assert 0x100 * w == (0x100 * l + h) + M * h;
    AddMultiple(0x100 * l + h, h);
  }

  /** 256 is its own inverse. */
  lemma Twice256(a: nat)
    ensures Same(0x100 * (0x100 * a), a)
  {
    AddMultiple(a, a);
  }

  lemma SameTimes(a: nat, b: nat)
    requires Same(a, b)
    ensures Same(0x100 * a, 0x100 * b)
  {
    var k := a / M - b / M;
    assert a == b + M * k;
    assert 0x100 * a == 0x100 * b + M * (0x100 * k);
    AddMultiple(0x100 * b, 0x100 * k);
  }

  lemma {:induction false} WeighConcat(a: seq<byte>, b: seq<byte>, odd: bool)
    ensures Weigh(a + b, odd) == Weigh(a, odd) + Weigh(b, odd != (|a| % 2 == 1))
    decreases |a|
  {
    if a == [] {
      assert a + b == b;
    } else {
      assert (a + b)[1..] == a[1..] + b;
      WeighConcat(a[1..], b, !odd);
    }
  }

  /** Weighing from the other parity multiplies by 256. */
  lemma {:induction false} WeighOther(b: seq<byte>, odd: bool)
    ensures Same(Weigh(b, !odd), 0x100 * Weigh(b, odd))
    decreases |b|
  {
    if b != [] {
      WeighOther(b[1..], !odd);
      var x, r := b[0] as int, Weigh(b[1..], !odd);
      if odd {
        Twice256(x);
      }
      SameAdd(if odd then x else 0x100 * x, 0x100 * (if odd then 0x100 * x else x), Weigh(b[1..], odd), 0x100 * r);
    }
  }

  lemma WeighTwo(x: byte, y: byte)
    ensures Weigh([x, y], false) == x as int + 0x100 * y as int
    ensures Weigh([x], false) == x as int
  {
    assert [x, y][1..] == [y] && [y][1..] == [] && [x][1..] == [];
    assert Weigh([y], true) == 0x100 * y as int;
  }

  /** Taking two more bytes at an even place adds their little-endian word. */
  lemma WeighStep(b: seq<byte>, i: nat)
    requires i + 2 <= |b| && i % 2 == 0
    ensures Weigh(b[..i + 2], false) == Weigh(b[..i], false) + b[i] as int + 0x100 * b[i + 1] as int
    ensures Weigh(b[..i + 2], true) == Weigh(b[..i], true) + 0x100 * b[i] as int + b[i + 1] as int
  {
    assert b[..i + 2] == b[..i] + [b[i], b[i + 1]];
    WeighConcat(b[..i], [b[i], b[i + 1]], false);
    WeighConcat(b[..i], [b[i], b[i + 1]], true);
    WeighTwo(b[i], b[i + 1]);
    assert [b[i], b[i + 1]][1..] == [b[i + 1]] && [b[i + 1]][1..] == [];
    assert Weigh([b[i + 1]], false) == b[i + 1] as int;
  }

  lemma WeighLast(b: seq<byte>, i: nat)
    requires i + 1 == |b| && i % 2 == 0
    ensures Weigh(b, false) == Weigh(b[..i], false) + b[i] as int
    ensures Weigh(b, true) == Weigh(b[..i], true) + 0x100 * b[i] as int
  {
    assert b == b[..i] + [b[i]];
    WeighConcat(b[..i], [b[i]], false);
    WeighConcat(b[..i], [b[i]], true);
    assert [b[i]][1..] == [];
  }

  /** A buffer summed from its second byte, the first one added in the high place: swapping the
      bytes of the result gives the sum of the buffer. */
  lemma OddStart(b: seq<byte>, w: nat)
    requires b != [] && w <= 0xffff && Same(w, 0x100 * b[0] as int + Weigh(b[1..], false))
    ensures Swap(w) == Sum(b)
  {
    var x, r := b[0] as int, Weigh(b[1..], false);
    SwapSame(w);
    SameTimes(w, 0x100 * x + r);
    Twice256(x);
    WeighOther(b[1..], false);
    SameAdd(0x100 * (0x100 * x), x, 0x100 * r, Weigh(b[1..], true));
    SameCanon(Swap(w), Weigh(b, false));
  }
}
