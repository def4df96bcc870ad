/**
 Incremental checksum updates in place: the TTL decrement of a forwarded IP header (ip.c) and
 the turning of an ICMP echo request into a reply (icmp.c).
 */
module ChecksumUpdate {
  import opened Basics
  import opened OnesSum

  /** A receiver accepts the bytes: the inverted sum over all of them is zero. */
  predicate Verifies(b: seq<byte>) {
    Sum(b) == 0xffff
  }

  lemma VerifiesIs(b: seq<byte>)
    ensures Verifies(b) <==> Weigh(b, false) > 0 && Weigh(b, false) % M == 0
  {
    var w := Weigh(b, false);
    if w > 0 {
      assert (w - 1) % M == M - 1 <==> w % M == 0;
    }
  }

  /** Changing one byte changes the weighed sum by its weight. */
  lemma {:induction false} WeighUpdate(b: seq<byte>, i: nat, v: byte, odd: bool)
    requires i < |b|
    ensures Weigh(b[i := v], odd) - Weigh(b, odd) ==
            (if odd != (i % 2 == 1) then 0x100 else 1) * (v as int - b[i] as int)
    decreases i
  {
    var c := b[i := v];
    if i == 0 {
      assert c[1..] == b[1..];
    } else {
      assert c[1..] == b[1..][i - 1 := v];
      WeighUpdate(b[1..], i - 1, v, !odd);
    }
  }

  lemma {:induction false} WeighZero(b: seq<byte>, odd: bool)
    ensures Weigh(b, odd) == 0 <==> forall k :: 0 <= k < |b| ==> b[k] == 0
    decreases |b|
  {
    if b != [] {
      WeighZero(b[1..], !odd);
      assert forall k :: 0 < k < |b| ==> b[k] == b[1..][k - 1];
    }
  }

  /** The new value of a checksum field `c` when a word of the message drops by `d`. */
  function Adjust(c: nat, d: nat): (r: nat)
    requires c <= 0xffff && 0 < d <= 0xffff
    ensures r <= 0xffff
  {
    if c >= 0xffff - d then (c + d + 1) % 0x1_0000 else c + d
  }

  lemma AdjustSum(c: nat, d: nat)
    requires c <= 0xffff && 0 < d <= 0xffff
    ensures (Adjust(c, d) - d) % M == c % M
    ensures Adjust(c, d) == 0 <==> c == 0xffff - d
  {
    AddMultiple(c, -1);
  }

  /** `b` with a low byte lowered by `d` and the checksum field at `f` adjusted. */
  function Updated(b: seq<byte>, i: nat, d: byte, f: nat): seq<byte>
    requires i < |b| && f + 1 < |b| && 0 < d <= b[i]
  {
    var c := Adjust(b[f] as int + 0x100 * b[f + 1] as int, d as int);
    b[i := b[i] - d][f := c % 0x100][f + 1 := c / 0x100]
  }

  /** The update agrees with recomputation modulo 65535 (section 3 of RFC 1624). */
  lemma UpdateSum(b: seq<byte>, i: nat, d: byte, f: nat)
    requires i < |b| && f + 1 < |b| && 0 < d <= b[i] && i % 2 == 0 && f % 2 == 0 && i != f
    ensures Weigh(Updated(b, i, d, f), false) % M == Weigh(b, false) % M
  {
    UpdateWeigh(b, i, d, f);
    var c := b[f] as int + 0x100 * b[f + 1] as int;
    AdjustSum(c, d as int);
    hide Weigh, Adjust, Updated;
    SameShift(Weigh(b, false), Weigh(Updated(b, i, d, f), false), c, Adjust(c, d as int) - d as int);
  }

  lemma SameShift(w: int, w': int, c: int, e: int)
    requires w' == w + e - c && e % M == c % M
    ensures w' % M == w % M
  {
    var k := e / M - c / M;
    assert w' == w + M * k;
    AddMultiple(w, k);
  }

  lemma UpdateWeigh(b: seq<byte>, i: nat, d: byte, f: nat)
    requires i < |b| && f + 1 < |b| && 0 < d <= b[i] && i % 2 == 0 && f % 2 == 0 && i != f
    ensures var c := b[f] as int + 0x100 * b[f + 1] as int;
            Weigh(Updated(b, i, d, f), false) == Weigh(b, false) + (Adjust(c, d as int) - d as int) - c
  {
    hide Weigh, Adjust;
    var c' := Adjust(b[f] as int + 0x100 * b[f + 1] as int, d as int);
    var b1 := b[i := b[i] - d];
    var b2 := b1[f := c' % 0x100];
    WeighUpdate(b, i, b[i] - d, false);
    WeighUpdate(b1, f, c' % 0x100, false);
    WeighUpdate(b2, f + 1, c' / 0x100, false);
  }

  /** After the update the bytes still verify, unless the update left them all zero. */
  lemma UpdateVerifies(b: seq<byte>, i: nat, d: byte, f: nat)
    requires i < |b| && f + 1 < |b| && 0 < d <= b[i] && i % 2 == 0 && f % 2 == 0 && i != f
    requires Verifies(b)
    ensures Verifies(Updated(b, i, d, f)) <==>
            b[i] > d || exists k :: 0 <= k < |b| && k != i && k != f && k != f + 1 && b[k] != 0
  {
    var u := Updated(b, i, d, f);
    UpdateSum(b, i, d, f);
    VerifiesIs(b);
    VerifiesIs(u);
    WeighZero(u, false);
    hide Weigh, Verifies;
    if b[i] == d && forall k :: 0 <= k < |b| && k != i && k != f && k != f + 1 ==> b[k] == 0 {
      OnlyThree(b, i, f);
    } else if b[i] == d {
      var k :| 0 <= k < |b| && k != i && k != f && k != f + 1 && b[k] != 0;
      assert u[k] == b[k];
    } else {
      assert u[i] != 0;
    }
  }

  /** With all other bytes zero, a message that verifies has the checksum that adjusts to zero. */
  lemma OnlyThree(b: seq<byte>, i: nat, f: nat)
    requires i < |b| && f + 1 < |b| && 0 < b[i] && i % 2 == 0 && f % 2 == 0 && i != f
    requires forall k :: 0 <= k < |b| && k != i && k != f && k != f + 1 ==> b[k] == 0
    requires Weigh(b, false) % M == 0
    ensures b[f] as int + 0x100 * b[f + 1] as int == 0xffff - b[i] as int
    ensures forall k :: 0 <= k < |b| ==> Updated(b, i, b[i], f)[k] == 0
  {
    hide Weigh;
    var c := b[f] as int + 0x100 * b[f + 1] as int;
    WeighThree(b, i, f);
    MultipleIs(c + b[i] as int);
    AdjustSum(c, b[i] as int);
  }

  lemma MultipleIs(w: nat)
    requires 0 < w < 2 * M && w % M == 0
    ensures w == M
  {
  }

  lemma WeighThree(b: seq<byte>, i: nat, f: nat)
    requires i < |b| && f + 1 < |b| && i % 2 == 0 && f % 2 == 0 && i != f
    requires forall k :: 0 <= k < |b| && k != i && k != f && k != f + 1 ==> b[k] == 0
    ensures Weigh(b, false) == b[f] as int + 0x100 * b[f + 1] as int + b[i] as int
  {
    hide Weigh;
    var b1 := b[i := 0];
    var b2 := b1[f := 0];
    WeighUpdate(b, i, 0, false);
    WeighUpdate(b1, f, 0, false);
    WeighUpdate(b2, f + 1, 0, false);
    WeighZero(b2[f + 1 := 0], false);
  }

  const TTL := 8        // IP header: time to live
  const IP_CHKSUM := 10
  const ICMP_TYPE := 0
  const ICMP_CHKSUM := 2
  const ICMP_ECHO := 8
  const ICMP_ER := 0

  /** The header part of ip_forward: false when the TTL runs out. A header that verified still
      does when forwarded with a TTL of at least 2, and with a TTL of 0 it no longer does. */
  method ForwardHeader(iphdr: array<byte>) returns (forwarded: bool)
    requires iphdr.Length >= 20
    modifies iphdr
    ensures forwarded <==> old(iphdr[TTL]) != 1
    ensures iphdr[TTL] == if old(iphdr[TTL]) == 0 then 255 else old(iphdr[TTL]) - 1
    ensures forall k :: 0 <= k < iphdr.Length && k != TTL && k != IP_CHKSUM && k != IP_CHKSUM + 1 ==> iphdr[k] == old(iphdr[k])
    ensures forwarded && Verifies(old(iphdr[..])) ==> (Verifies(iphdr[..]) <==> old(iphdr[TTL]) >= 2)
  {
    ghost var b := iphdr[..];
    iphdr[TTL] := (iphdr[TTL] as int + 255) % 0x100;
    if iphdr[TTL] == 0 {
      return false;
    }
    var c := iphdr[IP_CHKSUM] as int + 0x100 * iphdr[IP_CHKSUM + 1] as int;
    if c >= 0xfffe {
      c := (c + 1 + 1) % 0x1_0000;
    } else {
      c := c + 1;
    }
    iphdr[IP_CHKSUM], iphdr[IP_CHKSUM + 1] := c % 0x100, c / 0x100;
    if b[TTL] > 0 {
      assert iphdr[..] == Updated(b, TTL, 1, IP_CHKSUM);
      if Verifies(b) {
        UpdateVerifies(b, TTL, 1, IP_CHKSUM);
      }
    } else {
      TtlZero(b, iphdr[..]);
    }
    forwarded := true;
  }

  /** A TTL of 0 wraps to 255, which the update does not account for. */
  lemma TtlZero(b: seq<byte>, u: seq<byte>)
    requires |b| >= 20 && b[TTL] == 0
    requires var c := Adjust(b[IP_CHKSUM] as int + 0x100 * b[IP_CHKSUM + 1] as int, 1);
             u == b[TTL := 255][IP_CHKSUM := c % 0x100][IP_CHKSUM + 1 := c / 0x100]
    ensures Verifies(b) ==> !Verifies(u)
  {
    var c := b[IP_CHKSUM] as int + 0x100 * b[IP_CHKSUM + 1] as int;
    var c' := Adjust(c, 1);
    WeighUpdate(b, TTL, 255, false);
    var b1 := b[TTL := 255];
    WeighUpdate(b1, IP_CHKSUM, c' % 0x100, false);
    WeighUpdate(b1[IP_CHKSUM := c' % 0x100], IP_CHKSUM + 1, c' / 0x100, false);
    VerifiesIs(b);
    VerifiesIs(u);
    AdjustSum(c, 1);
    hide Weigh, Verifies, Adjust;
    var w, w' := Weigh(b, false), Weigh(u, false);
    assert w' == w + 255 + c' - c;
    SameShift(w + 256, w', c, c' - 1);
    AddMultiple(256, w / M);
  }

  /** The echo part of icmp_input: the request becomes a reply. A request that verified gives a
      reply that verifies, except when every other byte of the message is zero. */
  method EchoReply(iecho: array<byte>)
    requires iecho.Length >= 8 && iecho[ICMP_TYPE] == ICMP_ECHO
    modifies iecho
    ensures iecho[ICMP_TYPE] == ICMP_ER
    ensures forall k :: 0 <= k < iecho.Length && k != ICMP_TYPE && k != ICMP_CHKSUM && k != ICMP_CHKSUM + 1 ==> iecho[k] == old(iecho[k])
    ensures Verifies(old(iecho[..])) ==>
              (Verifies(iecho[..]) <==>
               exists k :: 0 <= k < iecho.Length && k != ICMP_TYPE && k != ICMP_CHKSUM && k != ICMP_CHKSUM + 1 && iecho[k] != 0)
  {
    ghost var b := iecho[..];
    iecho[ICMP_TYPE] := ICMP_ER;
    var c := iecho[ICMP_CHKSUM] as int + 0x100 * iecho[ICMP_CHKSUM + 1] as int;
    if c >= 0xfff7 {
      c := (c + 8 + 1) % 0x1_0000;
    } else {
      c := c + 8;
    }
    iecho[ICMP_CHKSUM], iecho[ICMP_CHKSUM + 1] := c % 0x100, c / 0x100;
    assert iecho[..] == Updated(b, ICMP_TYPE, 8, ICMP_CHKSUM);
    if Verifies(b) {
      UpdateVerifies(b, ICMP_TYPE, 8, ICMP_CHKSUM);
      assert forall k :: 0 <= k < |b| && k != ICMP_TYPE && k != ICMP_CHKSUM && k != ICMP_CHKSUM + 1 ==> iecho[k] == b[k];
    }
  }

  /** The exception: a request of type 8 with all other bytes zero verifies, its reply does not. */
  lemma ZeroEchoWitness() returns (b: seq<byte>)
    ensures b == [8, 0, 0xf7, 0xff, 0, 0, 0, 0] && Verifies(b)
    ensures !Verifies(Updated(b, ICMP_TYPE, 8, ICMP_CHKSUM))
  {
    b := [8, 0, 0xf7, 0xff, 0, 0, 0, 0];
    var z := [0, 0, 0, 0, 0, 0, 0, 0];
    WeighZero(z, false);
    WeighUpdate(z, 0, 8, false);
    WeighUpdate(z[0 := 8], 2, 0xf7, false);
    WeighUpdate(z[0 := 8][2 := 0xf7], 3, 0xff, false);
    assert z[0 := 8][2 := 0xf7][3 := 0xff] == b;
    VerifiesIs(b);
    UpdateVerifies(b, ICMP_TYPE, 8, ICMP_CHKSUM);
  }
}
