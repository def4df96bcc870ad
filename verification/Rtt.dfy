/** The round-trip-time estimator and retransmission timeout of a pcb, in 16-bit arithmetic. */
module Rtt {
  import opened Basics

  const MAX_SAMPLE := 50  // ticks of 500 ms
  const MAXRTX := 12

  /** sa: smoothed round-trip time times 8; sv: deviation times 4; nrtx: retransmissions so far. */
  datatype Est = Est(sa: int, sv: int, rto: int, nrtx: int)

  datatype Event = Sample(m: int) | NewAck | Timeout(connecting: bool) | FastRexmit

  function Abs(x: int): nat { if x < 0 then -x else x }

  /** tcp_backoff: 1, 2, 3, 4, 5, 6, 7, 7, ... as powers of two */
  function Backoff(n: nat): nat {
    var k := if n < 7 then n + 1 else 7;
    Pow2(k)
  }

  function Pow2(k: nat): (r: nat)
    ensures r >= 1
  {
    if k == 0 then 1 else 2 * Pow2(k - 1)
  }

  function Step(e: Est, ev: Event): Est {
    match ev
    case Sample(m) =>
      var err := m - e.sa / 8;
      var sv := e.sv + (Abs(err) - e.sv / 4);
      Est(e.sa + err, sv, (e.sa + err) / 8 + sv, e.nrtx)
    case NewAck => e.(rto := e.sa / 8 + e.sv, nrtx := 0)
    case Timeout(connecting) =>
      e.(rto := if connecting || e.nrtx < 0 then e.rto else (e.sa / 8 + e.sv) * Backoff(e.nrtx), nrtx := e.nrtx + 1)
    case FastRexmit => e.(nrtx := e.nrtx + 1)
  }

  /** Samples are bounded, and a timeout happens only while nrtx indexes the backoff table. */
  predicate Admissible(e: Est, ev: Event) {
    match ev
    case Sample(m) => 0 <= m <= MAX_SAMPLE
    case Timeout(_) => e.nrtx <= MAXRTX
    case _ => true
  }

  predicate EstOk(e: Est) {
    0 <= e.sa <= 8 * MAX_SAMPLE + 7 && 3 <= e.sv <= 4 * MAX_SAMPLE + 3 && 3 <= e.rto <= 32384 && 0 <= e.nrtx
  }

  lemma BackoffRange(n: nat)
    ensures 2 <= Backoff(n) <= 128
  {
    assert Pow2(0) == 1;
    assert Pow2(1) == 2 && Pow2(2) == 4;
    assert Pow2(3) == 8 && Pow2(4) == 16;
    assert Pow2(5) == 32 && Pow2(6) == 64;
    assert Pow2(7) == 128;
    if n < 7 {
      assert n == 0 || n == 1 || n == 2 || n == 3 || n == 4 || n == 5 || n == 6;
    }
  }

  lemma StepOk(e: Est, ev: Event)
    requires EstOk(e) && Admissible(e, ev)
    ensures EstOk(Step(e, ev))
    ensures ev.Sample? ==> Abs(ev.m - Step(e, ev).sa / 8) <= Abs(ev.m - e.sa / 8)
    ensures !ev.Sample? ==> Step(e, ev).sa == e.sa && Step(e, ev).sv == e.sv
  {
    hide Backoff, Pow2;
    if ev.Timeout? {
      BackoffRange(e.nrtx);
      ScaledRange(e.sa / 8 + e.sv, Backoff(e.nrtx));
    }
  }

  lemma ScaledRange(r: int, b: int)
    requires 3 <= r <= 253 && 2 <= b <= 128
    ensures 3 <= r * b <= 32384
  {
    Product(r, 253, b);
    Product(3, r, b);
  }

  lemma Product(x: int, y: int, b: nat)
    requires x <= y
    ensures x * b <= y * b
  {
  }

  /** tcp_alloc: three seconds */
  const INITIAL := Est(0, 6, 6, 0)

  predicate IsRun(es: seq<Est>, evs: seq<Event>) {
    && |es| == |evs| + 1 && es[0] == INITIAL
    && forall i: nat :: i < |evs| ==> Follows(es, evs, i)
  }

  predicate Follows(es: seq<Est>, evs: seq<Event>, i: nat)
    requires |es| == |evs| + 1 && i < |evs|
  {
    Admissible(es[i], evs[i]) && es[i + 1] == Step(es[i], evs[i])
  }

  /** The timeout stays between 3 and 32384 ticks over every sequence of samples and timeouts. */
  lemma {:induction false} RunOk(es: seq<Est>, evs: seq<Event>, n: nat)
    requires IsRun(es, evs) && n < |es|
    ensures EstOk(es[n])
  {
    if n > 0 {
      RunOk(es, evs, n - 1);
      assert Follows(es, evs, n - 1);
      StepOk(es[n - 1], evs[n - 1]);
    }
  }

  // ----- what the estimate follows

  /** A sample never moves the smoothed time away from itself, and moves it nearer when they are eight
      ticks or more apart. */
  lemma SampleNears(e: Est, m: int)
    requires EstOk(e)
    ensures Abs(m - Step(e, Sample(m)).sa / 8) <= Abs(m - e.sa / 8)
    ensures Abs(m - e.sa / 8) >= 8 ==> Abs(m - Step(e, Sample(m)).sa / 8) < Abs(m - e.sa / 8)
  {
  }

  /** `n` samples of the same size. */
  function Samples(e: Est, m: int, n: nat): Est {
    if n == 0 then e else Step(Samples(e, m, n - 1), Sample(m))
  }

  /** How far sa is from standing for `m`. */
  function Far(sa: int, m: int): nat {
    if sa < 8 * m then 8 * m - sa else if sa > 8 * m + 7 then sa - (8 * m + 7) else 0
  }

  lemma SampleStep(e: Est, m: int)
    requires EstOk(e) && 0 <= m <= MAX_SAMPLE
    ensures var u := Step(e, Sample(m));
            && EstOk(u)
            && (if Far(e.sa, m) == 0 then Far(u.sa, m) == 0 else Far(u.sa, m) < Far(e.sa, m))
            && (Far(e.sa, m) == 0 ==> u.sv == e.sv - e.sv / 4 && u.rto == m + u.sv)
  {
    StepOk(e, Sample(m));
  }

  lemma {:induction false} Closer(e: Est, m: int, n: nat)
    requires EstOk(e) && 0 <= m <= MAX_SAMPLE
    ensures EstOk(Samples(e, m, n)) && (Far(Samples(e, m, n).sa, m) == 0 || Far(Samples(e, m, n).sa, m) + n <= Far(e.sa, m))
  {
    if n > 0 {
      Closer(e, m, n - 1);
      SampleStep(Samples(e, m, n - 1), m);
    }
  }

  /** Whatever came before, after enough samples of the same round-trip time the smoothed time is that
      time and stays. */
  lemma Converges(e: Est, m: int, n: nat)
    requires EstOk(e) && 0 <= m <= MAX_SAMPLE && n > 8 * MAX_SAMPLE
    ensures Samples(e, m, n).sa / 8 == m
  {
    hide EstOk;
    Closer(e, m, n);
    FarRange(e, m);
  }

  lemma FarRange(e: Est, m: int)
    requires EstOk(e) && 0 <= m <= MAX_SAMPLE
    ensures Far(e.sa, m) <= 8 * MAX_SAMPLE
  {
  }

  lemma {:induction false} Calms(e: Est, m: int, n: nat)
    requires EstOk(e) && 0 <= m <= MAX_SAMPLE && Far(e.sa, m) == 0
    ensures var u := Samples(e, m, n); EstOk(u) && Far(u.sa, m) == 0 && (u.sv == 3 || u.sv + n <= e.sv)
  {
    if n > 0 {
      Calms(e, m, n - 1);
      SampleStep(Samples(e, m, n - 1), m);
    }
  }

  lemma {:induction false} SamplesJoin(e: Est, m: int, a: nat, b: nat)
    ensures Samples(e, m, a + b) == Samples(Samples(e, m, a), m, b)
  {
    if b > 0 {
      SamplesJoin(e, m, a, b - 1);
    }
  }

  /** A little later the deviation is down to its least value, and the timeout is the round-trip time
      and three ticks. */
  lemma Settles(e: Est, m: int, n: nat)
    requires EstOk(e) && 0 <= m <= MAX_SAMPLE && n > 12 * MAX_SAMPLE + 2
    ensures var u := Samples(e, m, n); u.sa / 8 == m && u.sv == 3 && u.rto == m + 3
  {
    hide EstOk, Samples, Step, Far;
    var a := 8 * MAX_SAMPLE + 1;
    Closer(e, m, a);
    FarRange(e, m);
    SamplesJoin(e, m, a, n - a);
    var x := Samples(e, m, a);
    DevRange(x);
    Calms(x, m, n - a);
    Calms(x, m, n - a - 1);
    SampleStep(Samples(x, m, n - a - 1), m);
    SamplesLast(x, m, n - a);
    FarZero(Samples(x, m, n - a), m);
  }

  lemma SamplesLast(e: Est, m: int, n: nat)
    requires n > 0
    ensures Samples(e, m, n) == Step(Samples(e, m, n - 1), Sample(m))
  {
  }

  lemma FarZero(e: Est, m: int)
    requires Far(e.sa, m) == 0
    ensures e.sa / 8 == m
  {
  }

  lemma DevRange(e: Est)
    requires EstOk(e)
    ensures e.sv <= 4 * MAX_SAMPLE + 3
  {
  }

  // ----- backoff

  /** The timeout before any backoff. */
  function Base(e: Est): int {
    e.sa / 8 + e.sv
  }

  /** The timeout is the base, doubled at most once for each retransmission and seven times at all. */
  ghost predicate Backed(e: Est) {
    exists j: nat :: j <= 7 && j <= e.nrtx && e.rto == Base(e) * Pow2(j)
  }

  lemma {:induction false} Pow2Grows(j: nat, k: nat)
    requires j <= k
    ensures Pow2(j) <= Pow2(k)
    decreases k - j
  {
    if j < k {
      Pow2Grows(j, k - 1);
    }
  }

  lemma BackedStep(e: Est, ev: Event)
    requires EstOk(e) && Admissible(e, ev) && Backed(e)
    ensures Backed(Step(e, ev))
  {
    hide Pow2;
    var j: nat :| j <= 7 && j <= e.nrtx && e.rto == Base(e) * Pow2(j);
    var u := Step(e, ev);
    assert Pow2(0) == 1 by { PowStart(); }
    match ev
    case Sample(m) => assert u.rto == Base(u) * Pow2(0);
    case NewAck => assert u.rto == Base(u) * Pow2(0);
    case Timeout(connecting) =>
      if connecting {
        assert u.rto == Base(u) * Pow2(j);
      } else {
        var k := if e.nrtx < 7 then e.nrtx + 1 else 7;
        assert u.rto == Base(u) * Pow2(k);
      }
    case FastRexmit => assert u.rto == Base(u) * Pow2(j);
  }

  lemma PowStart()
    ensures Pow2(0) == 1
  {
  }

  lemma {:induction false} RunBacked(es: seq<Est>, evs: seq<Event>, n: nat)
    requires IsRun(es, evs) && n < |es|
    ensures EstOk(es[n]) && Backed(es[n])
  {
    RunOk(es, evs, n);
    if n == 0 {
      PowStart();
      assert INITIAL.rto == Base(INITIAL) * Pow2(0);
    } else {
      RunBacked(es, evs, n - 1);
      assert Follows(es, evs, n - 1);
      BackedStep(es[n - 1], evs[n - 1]);
    }
  }

  /** A retransmission timeout never shortens the timeout. Up to the end of the table it at least doubles
      it, and exactly doubles it when each retransmission so far was by timeout. */
  lemma TimeoutGrows(e: Est)
    requires EstOk(e) && Backed(e) && e.nrtx <= MAXRTX
    ensures var u := Step(e, Timeout(false));
            && u.rto >= e.rto && (e.nrtx < 7 ==> u.rto >= 2 * e.rto)
            && u.rto == Base(e) * Pow2(if e.nrtx < 7 then e.nrtx + 1 else 7)
            && (e.nrtx < 7 && e.rto == Base(e) * Pow2(e.nrtx) ==> u.rto == 2 * e.rto)
  {
    hide Pow2, Backoff, EstOk, Base;
    var j: nat :| j <= 7 && j <= e.nrtx && e.rto == Base(e) * Pow2(j);
    var b, k := Base(e), if e.nrtx < 7 then e.nrtx else 7;
    BaseRange(e);
    Pow2Grows(j, k);
    PowNext(k);
    Scale(b, Pow2(j), Pow2(k));
    TimeoutRto(e);
  }

  lemma BaseRange(e: Est)
    requires EstOk(e)
    ensures Base(e) >= 0
  {
  }

  lemma TimeoutRto(e: Est)
    requires 0 <= e.nrtx
    ensures Step(e, Timeout(false)).rto == Base(e) * Pow2(if e.nrtx < 7 then e.nrtx + 1 else 7)
  {
    hide Pow2;
  }

  lemma Scale(b: int, x: int, y: int)
    requires 0 <= b && x <= y
    ensures b * x <= b * y && b * (2 * y) == 2 * (b * y)
  {
  }

  lemma PowNext(k: nat)
    ensures Pow2(k + 1) == 2 * Pow2(k)
  {
  }

  // ----- in 16 bits

  /** Assignment to an s16_t. */
  function S16(x: int): s16 {
    var w := x % 0x1_0000;
    if w < 0x8000 then w else w - 0x1_0000
  }

  /** A sample of any size, every assignment cut to 16 bits. */
  function Sample16(e: Est, d: int): Est {
    var m := S16(S16(d) - e.sa / 8);
    var dev := S16(S16(if m < 0 then 0 - m else m) - e.sv / 4);
    var sa, sv := S16(e.sa + m), S16(e.sv + dev);
    Est(sa, sv, S16(sa / 8 + sv), e.nrtx)
  }

  lemma NotCut(x: int)
    requires -0x8000 <= x < 0x8000
    ensures S16(x) == x
  {
  }

  /** The low 16 bits of a small 32-bit difference. */
  lemma LowBits(d: int)
    requires d % 0x1_0000_0000 < 0x8000
    ensures S16(d) == d % 0x1_0000_0000
  {
    var k, m, q, r := d / 0x1_0000_0000, d % 0x1_0000_0000, d / 0x1_0000, d % 0x1_0000;
    var j := q - 0x1_0000 * k;
    assert 0x1_0000 * j == m - r;
    assert j == 0;
  }

  /** For samples below 0x6000 nothing is cut: the step is the exact one. */
  lemma Sample16Is(e: Est, d: int)
    requires EstOk(e) && d % 0x1_0000_0000 < 0x6000
    ensures Sample16(e, d) == Step(e, Sample(d % 0x1_0000_0000))
    ensures d % 0x1_0000_0000 <= MAX_SAMPLE ==> EstOk(Sample16(e, d))
  {
    hide S16;
    var m := d % 0x1_0000_0000;
    var err := m - e.sa / 8;
    LowBits(d);
    NotCut(err);
    NotCut(Abs(err));
    NotCut(Abs(err) - e.sv / 4);
    NotCut(e.sa + err);
    NotCut(e.sv + (Abs(err) - e.sv / 4));
    NotCut((e.sa + err) / 8 + (e.sv + (Abs(err) - e.sv / 4)));
    if m <= MAX_SAMPLE {
      StepOk(e, Sample(m));
    }
  }

  /** The estimator fields of a pcb, signed 16-bit numbers. */
  class Estimator {
    var sa: s16
    var sv: s16
    var rto: s16
    var nrtx: nat

    ghost function Model(): Est
      reads this
    {
      Est(sa, sv, rto, nrtx)
    }

    constructor ()
      ensures Model() == INITIAL
    {
      sa, sv, rto, nrtx := 0, 6, 6, 0;
    }

    /** The RTT update of tcp_receive: the timed segment was sent at `rttest`, now is `ticks`. */
    method Update(ticks: u32, rttest: u32)
      modifies this
      ensures Model() == Sample16(old(Model()), ticks - rttest)
      ensures old(EstOk(Model())) && (ticks - rttest) % 0x1_0000_0000 < 0x6000 ==>
                sa == old(sa) + (ticks - rttest) % 0x1_0000_0000 - old(sa) / 8 && rto == sa / 8 + sv
      ensures var m := (ticks - rttest) % 0x1_0000_0000;
              old(EstOk(Model())) && m < 0x6000 ==> Model() == Step(old(Model()), Sample(m))
      ensures old(EstOk(Model())) && (ticks - rttest) % 0x1_0000_0000 <= MAX_SAMPLE ==> EstOk(Model())
    {
      hide S16, EstOk;
      if EstOk(Model()) && (ticks - rttest) % 0x1_0000_0000 < 0x6000 {
        Sample16Is(Model(), ticks - rttest);
      }
      var m: s16 := S16(ticks - rttest);
      m := S16(m - sa / 8);
      NotCut(m);
      sa := S16(sa + m);
      if m < 0 {
        m := S16(0 - m);
      }
      m := S16(m - sv / 4);
      sv := S16(sv + m);
      rto := S16(sa / 8 + sv);
    }

    /** An ACK of new data. */
    method Acked()
      requires EstOk(Model())
      modifies this
      ensures Model() == Step(old(Model()), NewAck) && EstOk(Model())
    {
      StepOk(Model(), NewAck);
      nrtx := 0;
      rto := sa / 8 + sv;
    }

    /** The retransmission part of tcp_slowtmr, with the increment of tcp_rexmit_rto. */
    method TimedOut(connecting: bool)
      requires EstOk(Model()) && nrtx <= MAXRTX
      modifies this
      ensures Model() == Step(old(Model()), Timeout(connecting)) && EstOk(Model())
    {
      StepOk(Model(), Timeout(connecting));
      if !connecting {
        rto := (sa / 8 + sv) * Backoff(nrtx);
      }
      nrtx := nrtx + 1;
    }
  }
}
