/**
 The SLIP framing of slipif.c: the encoder, the byte-driven decoder, and the decoder as the driver
 runs it over a pbuf chain.
 */
module Slip {
  import opened Basics

  const END: u8 := 0xC0
  const ESC: u8 := 0xDB
  const ESC_END: u8 := 0xDC
  const ESC_ESC: u8 := 0xDD
  const MAX_SIZE: nat := 1500

  // ----- encoding

  function Stuff(c: u8): (r: seq<u8>) {
    if c == END then [ESC, ESC_END] else if c == ESC then [ESC, ESC_ESC] else [c]
  }

  function Body(bs: seq<u8>): seq<u8> {
    if bs == [] then [] else Stuff(bs[0]) + Body(bs[1..])
  }

  function Encode(packet: seq<u8>): seq<u8> {
    [END] + Body(packet) + [END]
  }

  function EncodeAll(packets: seq<seq<u8>>): seq<u8> {
    if packets == [] then [] else Encode(packets[0]) + EncodeAll(packets[1..])
  }

  // ----- decoding

  /** Decoder state: was the last byte an ESC, and the packet so far. */
  datatype Dec = Dec(esc: bool, got: seq<u8>)

  const START: Dec := Dec(false, [])

  /** One byte more than SLIP_MAX_SIZE is kept, the rest dropped. */
  function Store(got: seq<u8>, c: u8): seq<u8> {
    if |got| <= MAX_SIZE then got + [c] else got
  }

  function Unescape(c: u8): u8 {
    if c == ESC_END then END else if c == ESC_ESC then ESC else c
  }

  /** Does this byte complete a packet? */
  predicate Completes(d: Dec, c: u8) {
    !d.esc && c == END && d.got != []
  }

  function Feed(d: Dec, c: u8): Dec {
    if d.esc then Dec(false, Store(d.got, Unescape(c)))
    else if c == END then START
    else if c == ESC then d.(esc := true)
    else d.(got := Store(d.got, c))
  }

  /** The state after reading `bs`. */
  function After(d: Dec, bs: seq<u8>): Dec
    decreases |bs|
  {
    if bs == [] then d else After(Feed(d, bs[0]), bs[1..])
  }

  /** The packets completed while reading `bs`. */
  function Packets(d: Dec, bs: seq<u8>): seq<seq<u8>>
    decreases |bs|
  {
    if bs == [] then []
    else (if Completes(d, bs[0]) then [d.got] else []) + Packets(Feed(d, bs[0]), bs[1..])
  }

  /** What the decoder makes of sent packets: empty ones vanish, long ones are cut. */
  function Received(packets: seq<seq<u8>>): seq<seq<u8>> {
    if packets == [] then []
    else (if packets[0] == [] then [] else [Cut(packets[0])]) + Received(packets[1..])
  }

  function Cut(packet: seq<u8>): seq<u8> {
    if |packet| <= MAX_SIZE + 1 then packet else packet[..MAX_SIZE + 1]
  }

  // ----- properties

  /** Reading is the same however the bytes are cut into pieces. */
  lemma {:induction false} ReadSplit(d: Dec, a: seq<u8>, b: seq<u8>)
    ensures After(d, a + b) == After(After(d, a), b)
    ensures Packets(d, a + b) == Packets(d, a) + Packets(After(d, a), b)
    decreases |a|
  {
    if a == [] {
      assert a + b == b;
    } else {
      ReadSplit(Feed(d, a[0]), a[1..], b);
      assert (a + b)[1..] == a[1..] + b;
    }
  }

  /** No frame delimiter is sent inside a packet. */
  lemma {:induction false} BodyHasNoEnd(bs: seq<u8>)
    ensures END !in Body(bs)
    decreases |bs|
  {
    if bs != [] {
      BodyHasNoEnd(bs[1..]);
    }
  }

  lemma StuffRead(d: Dec, c: u8)
    requires !d.esc
    ensures After(d, Stuff(c)) == d.(got := Store(d.got, c)) && Packets(d, Stuff(c)) == []
  {
    var s := Stuff(c);
    if |s| == 2 {
      assert s[1..] == [s[1]] && s[1..][1..] == [];
      var e := d.(esc := true);
      assert After(d, s) == After(e, s[1..]) == After(Feed(e, s[1]), []);
      assert Packets(e, s[1..]) == Packets(Feed(e, s[1]), []);
    } else {
      assert s[1..] == [];
    }
  }

  lemma {:induction false} BodyRead(d: Dec, bs: seq<u8>)
    requires !d.esc && |d.got| <= MAX_SIZE + 1
    ensures After(d, Body(bs)) == d.(got := Cut(d.got + bs)) && Packets(d, Body(bs)) == []
    decreases |bs|
  {
    hide Stuff, Feed, Completes, Cut, Store;
    if bs == [] {
      assert d.got + bs == d.got;
      assert Cut(d.got) == d.got by { CutSame(d.got); }
    } else {
      StuffRead(d, bs[0]);
      ReadSplit(d, Stuff(bs[0]), Body(bs[1..]));
      StoreCut(d.got, bs);
      BodyRead(d.(got := Store(d.got, bs[0])), bs[1..]);
    }
  }

  lemma StoreCut(got: seq<u8>, bs: seq<u8>)
    requires bs != [] && |got| <= MAX_SIZE + 1
    ensures |Store(got, bs[0])| <= MAX_SIZE + 1
    ensures Cut(Store(got, bs[0]) + bs[1..]) == Cut(got + bs)
  {
    if |got| <= MAX_SIZE {
      assert (got + [bs[0]]) + bs[1..] == got + bs;
    }
  }

  lemma EncodeRead(d: Dec, packet: seq<u8>)
    requires !d.esc
    ensures After(d, Encode(packet)) == START
    ensures Packets(d, Encode(packet)) ==
            (if d.got == [] then [] else [d.got]) + (if packet == [] then [] else [Cut(packet)])
  {
    hide Body, Cut;
    ReadSplit(d, [END] + Body(packet), [END]);
    ReadSplit(d, [END], Body(packet));
    assert After(d, [END]) == START;
    BodyRead(START, packet);
    assert [] + packet == packet;
    assert Cut(packet) == [] <==> packet == [] by { CutEmpty(packet); }
  }

  lemma CutEmpty(packet: seq<u8>)
    ensures Cut(packet) == [] <==> packet == []
  {
  }

  /** Decoding the encodings gives the packets back, in order: every packet of up to 1501 bytes
      unchanged, empty packets not at all, longer ones cut. */
  lemma {:induction false} RoundTrip(packets: seq<seq<u8>>)
    ensures After(START, EncodeAll(packets)) == START
    ensures Packets(START, EncodeAll(packets)) == Received(packets)
    decreases |packets|
  {
    if packets != [] {
      RoundTrip(packets[1..]);
      EncodeRead(START, packets[0]);
      ReadSplit(START, Encode(packets[0]), EncodeAll(packets[1..]));
    }
  }

  /** The packets that come back unchanged, as a list, are exactly those of 1 to 1501 bytes. */
  lemma {:induction false} ReceivedSame(packets: seq<seq<u8>>)
    ensures |Received(packets)| <= |packets|
    ensures Received(packets) == packets <==> forall p :: p in packets ==> 1 <= |p| <= MAX_SIZE + 1
    decreases |packets|
  {
    if packets != [] {
      ReceivedSame(packets[1..]);
      var rest := Received(packets[1..]);
      if packets[0] != [] {
        CutSame(packets[0]);
        assert Received(packets) == packets <==> Cut(packets[0]) == packets[0] && rest == packets[1..] by {
          assert packets == [packets[0]] + packets[1..];
          assert ([Cut(packets[0])] + rest)[0] == Cut(packets[0]) && ([Cut(packets[0])] + rest)[1..] == rest;
        }
      }
    }
  }

  lemma CutSame(p: seq<u8>)
    ensures Cut(p) == p <==> |p| <= MAX_SIZE + 1
  {
  }

  /** Whatever noise came before, the leading END closes it: all packets after it are intact unless
      the noise ended in a bare ESC. */
  lemma Resync(noise: seq<u8>, packets: seq<seq<u8>>)
    requires !After(START, noise).esc
    ensures Packets(START, noise + EncodeAll(packets)) ==
            Packets(START, if packets == [] then noise else noise + [END]) + Received(packets)
  {
    hide Encode, Packets, After, EncodeAll, Received, Cut;
    var d := After(START, noise);
    ReadSplit(START, noise, EncodeAll(packets));
    AllHead(packets);
    if packets == [] {
      PacketsOfNothing(d);
    } else {
      EncodeRead(d, packets[0]);
      RoundTrip(packets[1..]);
      ReadSplit(d, Encode(packets[0]), EncodeAll(packets[1..]));
      ReadSplit(START, noise, [END]);
      EndRead(d);
    }
  }

  lemma AllHead(packets: seq<seq<u8>>)
    ensures packets == [] ==> EncodeAll(packets) == [] && Received(packets) == []
    ensures packets != [] ==> EncodeAll(packets) == Encode(packets[0]) + EncodeAll(packets[1..])
    ensures packets != [] ==>
              Received(packets) == (if packets[0] == [] then [] else [Cut(packets[0])]) + Received(packets[1..])
  {
  }

  lemma EndRead(d: Dec)
    requires !d.esc
    ensures Packets(d, [END]) == if d.got == [] then [] else [d.got]
  {
    assert Packets(Feed(d, END), [END][1..]) == [];
  }

  /** No more than one byte over SLIP_MAX_SIZE is ever kept. */
  lemma {:induction false} KeptBound(d: Dec, bs: seq<u8>)
    requires |d.got| <= MAX_SIZE + 1
    ensures |After(d, bs).got| <= MAX_SIZE + 1
    decreases |bs|
  {
    if bs != [] {
      KeptBound(Feed(d, bs[0]), bs[1..]);
    }
  }

  lemma EscapedEndRead(d: Dec)
    requires d.esc
    ensures After(d, [END]) == Dec(false, Store(d.got, END)) && Packets(d, [END]) == []
  {
    assert [END][1..] == [];
    assert After(d, [END]) == After(Feed(d, END), []);
    assert Packets(d, [END]) == Packets(Feed(d, END), []);
  }

  /** A frame read behind a bare ESC: its leading END is taken as data. */
  lemma EscapedRead(d: Dec, packet: seq<u8>)
    requires d.esc && |d.got| <= MAX_SIZE + 1
    ensures After(d, Encode(packet)) == START
    ensures Packets(d, Encode(packet)) == [Cut(d.got + [END] + packet)]
  {
    hide Body, Cut, Packets, After, Store;
    ReadSplit(d, [END] + Body(packet), [END]);
    ReadSplit(d, [END], Body(packet));
    EscapedEndRead(d);
    var e := Dec(false, Store(d.got, END));
    StoreCut(d.got, [END] + packet);
    assert ([END] + packet)[1..] == packet && d.got + ([END] + packet) == d.got + [END] + packet;
    BodyRead(e, packet);
    CutEmpty(d.got + [END] + packet);
    EndRead(Dec(false, Cut(d.got + [END] + packet)));
    AfterEnd(Dec(false, Cut(d.got + [END] + packet)));
  }

  lemma AfterEnd(d: Dec)
    requires !d.esc
    ensures After(d, [END]) == START
  {
    assert [END][1..] == [];
  }

  /** Behind noise that ends in a bare ESC what the noise left, an END and the first packet become
      one packet; the packets behind that are intact. */
  lemma EscBeforeFrame(noise: seq<u8>, packets: seq<seq<u8>>)
    requires After(START, noise).esc && packets != []
    ensures Packets(START, noise + EncodeAll(packets)) ==
            Packets(START, noise) + [Cut(After(START, noise).got + [END] + packets[0])] + Received(packets[1..])
  {
    hide Encode, Packets, After, EncodeAll, Received, Cut;
    var d := After(START, noise);
    ReadSplit(START, noise, EncodeAll(packets));
    AllHead(packets);
    KeptBound(START, noise);
    EscapedRead(d, packets[0]);
    RoundTrip(packets[1..]);
    ReadSplit(d, Encode(packets[0]), EncodeAll(packets[1..]));
  }

  /** Do the bytes kept of `packet` only repeat `u`? */
  predicate Repeats(u: seq<u8>, packet: seq<u8>)
    requires u != []
  {
    |packet| > MAX_SIZE && forall i :: 0 <= i <= MAX_SIZE ==> packet[i] == u[i % |u|]
  }

  lemma ModBack(i: int, n: int)
    requires n > 0
    ensures 0 <= i % n < n && (i - n) % n == i % n
  {
    var x, y := i / n, (i - n) / n;
    assert i == x * n + i % n && i - n == y * n + (i - n) % n;
    var k := x - y - 1;
    assert k * n == x * n - y * n - n;
    SmallMultiple(k, n);
  }

  lemma SmallMultiple(k: int, n: int)
    requires n > 0 && -n < k * n < n
    ensures k == 0
  {
    assert k >= 1 ==> k * n >= n;
    assert k <= -1 ==> k * n <= -n;
  }

  lemma {:induction false} RepeatAt(u: seq<u8>, p: seq<u8>, i: nat)
    requires u != [] && i < |p| && forall j :: 0 <= j <= i ==> p[j] == (u + p)[j]
    ensures 0 <= i % |u| < |u| && p[i] == u[i % |u|]
    decreases i
  {
    if i >= |u| {
      assert p[i] == (u + p)[i] == p[i - |u|];
      RepeatAt(u, p, i - |u|);
      ModBack(i, |u|);
    }
  }

  /** Bytes put in front of a packet go unnoticed only if the cut hides them. */
  lemma CutFront(u: seq<u8>, p: seq<u8>)
    requires u != []
    ensures Cut(u + p) == Cut(p) <==> Repeats(u, p)
  {
    if Cut(u + p) == Cut(p) {
      FrontRepeats(u, p);
    }
    if Repeats(u, p) {
      forall i | 0 <= i <= MAX_SIZE ensures (u + p)[i] == p[i] {
        RepeatBack(u, p, i);
      }
      assert Cut(u + p) == Cut(p);
    }
  }

  lemma FrontRepeats(u: seq<u8>, p: seq<u8>)
    requires u != [] && Cut(u + p) == Cut(p)
    ensures Repeats(u, p)
  {
    assert |p| > MAX_SIZE;
    forall i | 0 <= i <= MAX_SIZE ensures p[i] == u[i % |u|] {
      forall j | 0 <= j <= i ensures p[j] == (u + p)[j] {
        assert Cut(u + p)[j] == (u + p)[j] && Cut(p)[j] == p[j];
      }
      RepeatAt(u, p, i);
    }
  }

  lemma RepeatBack(u: seq<u8>, p: seq<u8>, i: nat)
    requires u != [] && Repeats(u, p) && i <= MAX_SIZE
    ensures (u + p)[i] == p[i]
  {
    if i >= |u| {
      ModBack(i, |u|);
      assert p[i - |u|] == u[(i - |u|) % |u|];
    }
  }

  /** The packets behind noise arrive intact exactly unless it ended in a bare ESC, leaving aside a
      first packet so long that the cut hides what was put in front of it. */
  lemma ResyncIff(noise: seq<u8>, packets: seq<seq<u8>>)
    requires packets != []
    ensures Packets(START, noise + EncodeAll(packets)) == Packets(START, noise + [END]) + Received(packets) <==>
            !After(START, noise).esc || Repeats(After(START, noise).got + [END], packets[0])
    ensures |packets[0]| <= MAX_SIZE ==>
              (Packets(START, noise + EncodeAll(packets)) == Packets(START, noise + [END]) + Received(packets) <==>
               !After(START, noise).esc)
  {
    hide Packets, After, EncodeAll, Received, Cut, Repeats;
    var d := After(START, noise);
    if |packets[0]| <= MAX_SIZE {
      TooShort(d.got + [END], packets[0]);
    }
    if d.esc {
      EscBeforeFrame(noise, packets);
      ReadSplit(START, noise, [END]);
      EscapedEndRead(d);
      AllHead(packets);
      var u, p, q, rest := d.got + [END], packets[0], Packets(START, noise), Received(packets[1..]);
      CutFront(u, p);
      FirstOf(q, Cut(u + p), Cut(p), rest);
    } else {
      Resync(noise, packets);
    }
  }

  lemma TooShort(u: seq<u8>, p: seq<u8>)
    requires u != [] && |p| <= MAX_SIZE
    ensures !Repeats(u, p)
  {
  }

  lemma FirstOf<T>(q: seq<T>, x: T, y: T, rest: seq<T>)
    ensures q + [x] + rest == q + ([y] + rest) <==> x == y
    ensures q + [x] + rest != q + rest
  {
    assert (q + [x] + rest)[|q|] == x && (q + ([y] + rest))[|q|] == y;
    if x == y {
      assert q + [x] + rest == q + ([y] + rest);
    }
    assert |q + [x] + rest| == |q + rest| + 1;
  }

  // ----- runs: bytes arrive in any pieces, the driver polls at any time

  datatype Event = Arrive(bytes: seq<u8>) | Poll

  /** The decoder, the bytes not yet read, and the packets handed up. */
  datatype Link = Link(dec: Dec, wire: seq<u8>, up: seq<seq<u8>>)

  /** One call of the input function: up to the first packet, or to the end of the bytes. */
  function Take(d: Dec, wire: seq<u8>): (Option<seq<u8>>, Dec, seq<u8>)
    decreases |wire|
  {
    if wire == [] then (None, d, [])
    else if Completes(d, wire[0]) then (Some(d.got), Feed(d, wire[0]), wire[1..])
    else Take(Feed(d, wire[0]), wire[1..])
  }

  function Step(l: Link, e: Event): Link {
    match e
    case Arrive(bytes) => l.(wire := l.wire + bytes)
    case Poll =>
      var (p, d, rest) := Take(l.dec, l.wire);
      Link(d, rest, if p == None then l.up else l.up + [p.value])
  }

  function Run(l: Link, es: seq<Event>): Link
    decreases |es|
  {
    if es == [] then l else Run(Step(l, es[0]), es[1..])
  }

  function Arrived(es: seq<Event>): seq<u8> {
    if es == [] then [] else (if es[0].Arrive? then es[0].bytes else []) + Arrived(es[1..])
  }

  lemma {:induction false} TakeOk(d: Dec, wire: seq<u8>)
    ensures var (p, d', rest) := Take(d, wire);
            && Packets(d, wire) == (if p == None then [] else [p.value]) + Packets(d', rest)
            && After(d, wire) == After(d', rest)
            && (p == None ==> rest == [])
    decreases |wire|
  {
    if wire != [] && !Completes(d, wire[0]) {
      TakeOk(Feed(d, wire[0]), wire[1..]);
    }
  }

  /** What was handed up, plus the decoding of what is unread and of `more` to come. */
  ghost function Total(l: Link, more: seq<u8>): seq<seq<u8>> {
    l.up + Packets(l.dec, l.wire + more)
  }

  lemma StepOk(l: Link, e: Event, more: seq<u8>)
    ensures Total(Step(l, e), more) == Total(l, (if e.Arrive? then e.bytes else []) + more)
  {
    hide Packets, After, Take;
    if e.Arrive? {
      assert (l.wire + e.bytes) + more == l.wire + (e.bytes + more);
    } else {
      var s := Step(l, e);
      TakeOk(l.dec, l.wire);
      ReadSplit(l.dec, l.wire, more);
      ReadSplit(s.dec, s.wire, more);
      assert [] + more == more;
    }
  }

  /** What was handed up plus what is still to be read is always the decoding of all bytes arrived. */
  lemma {:induction false} RunOk(l: Link, es: seq<Event>)
    ensures Total(Run(l, es), []) == Total(l, Arrived(es))
    decreases |es|
  {
    hide Total, Step;
    if es != [] {
      RunOk(Step(l, es[0]), es[1..]);
      StepOk(l, es[0], Arrived(es[1..]));
    }
  }

  lemma PacketsOfNothing(d: Dec)
    ensures Packets(d, []) == []
  {
  }

  /** Encoded packets sent in any pieces and polled in any way: what was handed up is an initial part
      of what was sent, and all of it once the driver has read everything. */
  lemma RunRoundTrip(packets: seq<seq<u8>>, es: seq<Event>)
    requires Arrived(es) == EncodeAll(packets)
    ensures Run(Link(START, [], []), es).up <= Received(packets)
    ensures Run(Link(START, [], []), es).wire == [] ==> Run(Link(START, [], []), es).up == Received(packets)
  {
    hide Packets, Run, Received;
    var l := Run(Link(START, [], []), es);
    RunOk(Link(START, [], []), es);
    RoundTrip(packets);
    assert [] + EncodeAll(packets) == EncodeAll(packets) && l.wire + [] == l.wire;
    assert l.up + Packets(l.dec, l.wire) == [] + Received(packets) == Received(packets);
    assert Packets(l.dec, []) == [] by { PacketsOfNothing(l.dec); }
  }

  // ----- the encoder over a pbuf chain

  /** slipif_output: the bytes handed to the serial device. */
  method Output(chain: seq<seq<u8>>) returns (sent: seq<u8>)
    ensures sent == Encode(Flat(chain))
  {
    hide Body;
    sent := [END];
    var q := 0;
    assert chain[0..] == chain;
    while q < |chain|
      invariant 0 <= q <= |chain| && [END] + Body(Flat(chain)) == sent + Body(Flat(chain[q..]))
    {
      var i := 0;
      ghost var rest := Flat(chain[q + 1..]);
      assert chain[q..][1..] == chain[q + 1..] && chain[q][0..] == chain[q];
      while i < |chain[q]|
        invariant 0 <= i <= |chain[q]|
        invariant [END] + Body(Flat(chain)) == sent + Body(chain[q][i..] + rest)
      {
        var c := chain[q][i];
        BodyStep(sent, chain[q], i, rest);
        ghost var before := sent;
        if c == END {
          sent := sent + [ESC];
          sent := sent + [ESC_END];
        } else if c == ESC {
          sent := sent + [ESC];
          sent := sent + [ESC_ESC];
        } else {
          sent := sent + [c];
        }
        assert sent == before + Stuff(c);
        i := i + 1;
      }
      assert chain[q][i..] + rest == rest;
      q := q + 1;
    }
    assert Body([]) == [] by { BodyOfNothing(); }
    sent := sent + [END];
  }

  lemma BodyOfNothing()
    ensures Body([]) == []
  {
  }

  lemma BodyStep(sent: seq<u8>, bs: seq<u8>, i: nat, rest: seq<u8>)
    requires i < |bs|
    ensures sent + Body(bs[i..] + rest) == sent + Stuff(bs[i]) + Body(bs[i + 1..] + rest)
  {
    assert (bs[i..] + rest)[1..] == bs[i + 1..] + rest;
  }

  // ----- the decoder over a pbuf chain

  /** A chain whose first `p` pbufs are full, with `i` bytes in the next. */
  ghost function Filled(chain: seq<seq<u8>>, p: nat, i: nat): seq<u8>
    requires p <= |chain| && (if p < |chain| then i < |chain[p]| else i == 0)
  {
    Flat(chain[..p]) + if p < |chain| then chain[p][..i] else []
  }

  lemma FilledPrefix(chain: seq<seq<u8>>, p: nat, i: nat)
    requires p <= |chain| && (if p < |chain| then i < |chain[p]| else i == 0)
    ensures Filled(chain, p, i) <= Flat(chain)
  {
    FlatJoin(chain[..p], chain[p..]);
    assert chain[..p] + chain[p..] == chain;
  }

  /** Writing the next byte, and moving to the next pbuf when this one is full. */
  lemma FilledWrite(chain: seq<seq<u8>>, p: nat, i: nat, c: u8, after: seq<seq<u8>>)
    requires p < |chain| && i < |chain[p]|
    requires p + 1 < |chain| ==> chain[p + 1] != []
    requires |after| == |chain| && after[..p] == chain[..p] && after[p + 1..] == chain[p + 1..]
    requires after[p] == chain[p][..i] + [c] + chain[p][i + 1..]
    ensures var full := i + 1 == |chain[p]|;
            Filled(after, if full then p + 1 else p, if full then 0 else i + 1) == Filled(chain, p, i) + [c]
  {
    var b := after[p];
    assert after[..p] == chain[..p] && b[..i + 1] == chain[p][..i] + [c];
    if i + 1 == |b| {
      assert after[..p + 1] == chain[..p] + [b] && b == chain[p][..i] + [c];
      FlatJoin(chain[..p], [b]);
      assert Flat([b]) == b by { assert [b][1..] == []; }
      if p + 1 < |chain| {
        assert after[p + 1][..0] == [];
      }
    }
  }

  lemma FilledNothing()
    ensures Filled([], 0, 0) == []
  {
  }

  /** struct slipif_priv, with the serial line it reads from. */
  class Slipif {
    var wire: seq<u8>          // bytes received and not read yet
    var q: seq<seq<u8>>        // payloads of the pbufs of the packet
    var p: nat                 // current pbuf; |q| stands for NULL
    var i: nat
    var recved: nat
    var esc: bool
    const link: seq<nat>       // payload sizes of one allocation from the pool

    ghost predicate Valid()
      reads this
    {
      && link != [] && (forall k :: 0 <= k < |link| ==> link[k] > 0)
      && p <= |q| && (forall k :: 0 <= k < |q| ==> q[k] != [])
      && (if p < |q| then i < |q[p]| else i == 0)
      && recved == |Filled(q, p, i)| <= MAX_SIZE + 1
    }

    ghost function Decoder(): Dec
      reads this
      requires Valid()
    {
      Dec(esc, Filled(q, p, i))
    }

    constructor (link: seq<nat>)
      requires link != [] && forall k :: 0 <= k < |link| ==> link[k] > 0
      ensures Valid() && Decoder() == START && wire == []
    {
      this.link, wire, q, p, i, recved, esc := link, [], [], 0, 0, 0, false;
      new;
      assert Filled([], 0, 0) == [];
    }

    /** Keep one byte of the packet, in a new pbuf if there is none to put it in. Past the maximal
        size the byte is dropped, though not before a pbuf was asked for. */
    method Keep(c: u8, memory: bool) returns (ok: bool)
      requires Valid()
      modifies this
      ensures Valid() && wire == old(wire) && esc == old(esc)
      ensures memory ==> ok
      ensures Decoder() == if ok then old(Decoder()).(got := Store(old(Decoder()).got, c)) else old(Decoder())
    {
      hide Filled;
      ok := true;
      if p == |q| {
        if !memory {
          return false;
        }
        Grow();
      }
      if recved <= MAX_SIZE {
        ghost var chain := q;
        var payload: seq<u8> := q[p][..i] + [c] + q[p][i + 1..];
        q := q[p := payload];
        FilledWrite(chain, p, i, c, q);
        recved := recved + 1;
        i := i + 1;
        if i >= |q[p]| {
          i := 0;
          p := p + 1;
        }
      }
    }

    /** Append an added allocation to the chain. */
    method Grow()
      requires Valid() && p == |q|
      modifies this`q
      ensures Valid() && p < |q|
      ensures Decoder() == old(Decoder())
    {
      ghost var chain := q;
      var added := [];
      var k := 0;
      while k < |link|
        invariant 0 <= k <= |link| && |added| == k
        invariant forall j :: 0 <= j < k ==> added[j] != []
      {
        added := added + [seq<u8>(link[k], _ => 0)];
        k := k + 1;
      }
      q := q + added;
      assert q[..p] == chain[..p] && q[p][..0] == [];
    }

    /** One pass of the loop of slipif_input. */
    method Accept(byte: u8, memory: bool) returns (packet: Option<seq<u8>>, ok: bool)
      requires Valid()
      modifies this
      ensures Valid() && wire == old(wire) && (memory ==> ok)
      ensures packet == if Completes(old(Decoder()), byte) then Some(old(Decoder()).got) else None
      ensures ok ==> Decoder() == Feed(old(Decoder()), byte)
      ensures !ok ==> packet == None && Decoder() == old(Decoder()).(esc := false)
    {
      hide Filled;
      var c := byte;
      packet, ok := None, true;
      assert recved == 0 <==> Filled(q, p, i) == [];
      if !esc {
        if c == END {
          if recved > 0 {
            FilledPrefix(q, p, i);
            packet := Some(Flat(q)[..recved]);
            assert packet.value == Filled(q, p, i);
            q, p, i, recved := [], 0, 0, 0;
            FilledNothing();
          }
          return;
        } else if c == ESC {
          esc := true;
          return;
        }
      } else {
        if c == ESC_END {
          c := END;
        } else if c == ESC_ESC {
          c := ESC;
        }
        esc := false;
      }
      ok := Keep(c, memory);
    }

    /** slipif_input. The pool still has memory for `pool` allocations; when one fails, the byte at
        hand is lost and the call ends. */
    method Input(pool: nat) returns (packet: Option<seq<u8>>, ghost lost: bool)
      requires Valid()
      modifies this
      ensures Valid() && |wire| <= |old(wire)| && wire == old(wire)[|old(wire)| - |wire|..]
      ensures !lost ==> (packet, Decoder(), wire) == Take(old(Decoder()), old(wire))
      ensures lost ==> packet == None && |wire| < |old(wire)|
      ensures lost ==> var read := old(wire)[..|old(wire)| - |wire| - 1];
                Packets(old(Decoder()), read) == [] && Decoder() == After(old(Decoder()), read).(esc := false)
      ensures pool >= |old(wire)| ==> !lost
    {
      hide Filled, Take, After, Packets, Completes, Feed;
      lost := false;
      var left := pool;
      ghost var d, w, n := Decoder(), wire, 0;
      NothingRead(d, w);
      while wire != []
        invariant Valid() && 0 <= n <= |w| && wire == w[n..]
        invariant Take(d, w) == Take(Decoder(), wire)
        invariant Packets(d, w[..n]) == [] && Decoder() == After(d, w[..n])
        invariant !lost && 0 <= left && left >= pool - n
        decreases |wire|
      {
        var c := wire[0];
        TakeOne(Decoder(), wire);
        ReadOne(d, w, n);
        wire := wire[1..];
        var full := p == |q|;
        var ok;
        packet, ok := Accept(c, left > 0);
        if packet.Some? {
          return;
        } else if !ok {
          lost := true;
          return;
        }
        left := if full && left > 0 then left - 1 else left;
        n := n + 1;
      }
      NothingRead(Decoder(), w);
      packet := None;
    }
  }

  lemma NothingRead(d: Dec, w: seq<u8>)
    ensures w[0..] == w && w[..0] == [] && After(d, []) == d && Packets(d, []) == []
    ensures Take(d, []) == (None, d, [])
  {
  }

  lemma TakeOne(d: Dec, w: seq<u8>)
    requires w != []
    ensures Take(d, w) == if Completes(d, w[0]) then (Some(d.got), Feed(d, w[0]), w[1..]) else Take(Feed(d, w[0]), w[1..])
  {
  }

  lemma ReadOne(d: Dec, w: seq<u8>, n: nat)
    requires n < |w|
    ensures var e := After(d, w[..n]);
            After(d, w[..n + 1]) == Feed(e, w[n])
            && Packets(d, w[..n + 1]) == Packets(d, w[..n]) + if Completes(e, w[n]) then [e.got] else []
  {
    var e := After(d, w[..n]);
    assert w[..n + 1] == w[..n] + [w[n]];
    ReadSplit(d, w[..n], [w[n]]);
    assert [w[n]][1..] == [];
    assert Packets(Feed(e, w[n]), []) == [];
  }
}
