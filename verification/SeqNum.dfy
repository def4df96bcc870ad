/** The 32-bit sequence-number comparisons of TCP. */
module SeqNum {
  import opened Basics

  const MOD32 := 0x1_0000_0000
  const HALF32 := 0x8000_0000

  function Wrap(x: int): (r: u32) {
    x % MOD32
  }

  /** The value of a 32-bit word read as a signed integer. */
  function Signed(x: u32): (r: int) {
    if x < HALF32 then x else x - MOD32
  }

  // Each comparison is the sign of the 32-bit difference.
  predicate SeqLt(a: u32, b: u32) { Signed(Wrap(a - b)) < 0 }

  predicate SeqLeq(a: u32, b: u32) { Signed(Wrap(a - b)) <= 0 }

  predicate SeqGt(a: u32, b: u32) { Signed(Wrap(a - b)) > 0 }

  predicate SeqGeq(a: u32, b: u32) { Signed(Wrap(a - b)) >= 0 }

  predicate SeqBetween(a: u32, b: u32, c: u32) { SeqGeq(a, b) && SeqLeq(a, c) }

  /** Adding to a wrapped number wraps the sum. */
  lemma WrapAdd(a: int, d: int)
    ensures Wrap(Wrap(a) + d) == Wrap(a + d)
  {
    var q := a / MOD32;
    assert a == q * MOD32 + Wrap(a);
    ModShift(Wrap(a) + d, q);
  }

  lemma ModShift(x: int, k: int)
    ensures (x + k * MOD32) % MOD32 == x % MOD32
  {
    var y := x + k * MOD32;
    assert y == (y / MOD32) * MOD32 + y % MOD32;
    assert x == (x / MOD32) * MOD32 + x % MOD32;
    var d := y / MOD32 - x / MOD32 - k;
    assert d * MOD32 == x % MOD32 - y % MOD32;
    assert d == 0;
  }

  /** Two positions less than 2^31 apart are ordered by their wrapped numbers. */
  lemma SignedDifference(a: int, b: int)
    requires -HALF32 <= a - b < HALF32
    ensures Signed(Wrap(Wrap(a) - Wrap(b))) == a - b
  {
    var k := b / MOD32 - a / MOD32;
    assert a == (a / MOD32) * MOD32 + Wrap(a) && b == (b / MOD32) * MOD32 + Wrap(b);
    assert Wrap(a) - Wrap(b) == (a - b) + k * MOD32;
    ModShift(a - b, k);
    if a - b < 0 {
      ModShift(a - b, 1);
    }
  }

  /** All five comparisons agree with the order of the unwrapped positions. */
  lemma Compare(a: int, b: int)
    requires -HALF32 <= a - b < HALF32
    ensures SeqLt(Wrap(a), Wrap(b)) <==> a < b
    ensures SeqLeq(Wrap(a), Wrap(b)) <==> a <= b
    ensures SeqGt(Wrap(a), Wrap(b)) <==> a > b
    ensures SeqGeq(Wrap(a), Wrap(b)) <==> a >= b
    ensures Wrap(a) == Wrap(b) <==> a == b
  {
    SignedDifference(a, b);
  }

  /** The distance from one wrapped number to a later one. */
  lemma Distance(a: int, b: int)
    requires 0 <= b - a < MOD32
    ensures Wrap(Wrap(b) - Wrap(a)) == b - a
  {
    var w: int := Wrap(a);
    WrapAdd(b, 0 - w);
    assert b - w == (b - a) + a / MOD32 * MOD32;
    ModShift(b - a, a / MOD32);
  }

  /** The position nearest to `near` that a sequence number stands for. */
  function Position(w: u32, near: int): int {
    near + Signed(Wrap(w - near))
  }

  lemma PositionIs(w: u32, near: int)
    ensures Wrap(Position(w, near)) == w
    ensures near - HALF32 <= Position(w, near) < near + HALF32
  {
    var d := Wrap(w - near);
    var k := (if d < HALF32 then 0 else -1) - (w - near) / MOD32;
    assert w - near == (w - near) / MOD32 * MOD32 + d;
    assert Position(w, near) == w + k * MOD32;
    ModShift(w, k);
  }

  /** No other position that near has the same number. */
  lemma PositionUnique(p: int, near: int)
    requires near - HALF32 <= p < near + HALF32
    ensures Position(Wrap(p), near) == p
  {
    var q := Position(Wrap(p), near);
    PositionIs(Wrap(p), near);
    assert p == p / MOD32 * MOD32 + Wrap(p) && q == q / MOD32 * MOD32 + Wrap(q);
  }
}
