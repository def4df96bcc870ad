/**
 IP fragmentation (ip_frag of ip_frag.c, the variant without a static buffer): a packet is cut
 into fragments whose pieces refer to the pbufs of the original chain.
 */
module IpFrag {
  import opened Basics

  const IP_HLEN: nat := 20
  const IP_OFFMASK: nat := 0x1fff

  /** A fragment: offset in units of 8 bytes, the more-fragments bit, its payload. */
  datatype Fragment = Fragment(off: u16, mf: bool, data: seq<u8>)

  /** A fragment as handed to the netif: the length field of its header, and its payload pbufs. */
  datatype Frame = Frame(off: u16, mf: bool, len: u16, pieces: seq<seq<u8>>)

  // ----- what is to be sent

  /** How many of `left` bytes go into the next fragment. */
  function Size(left: nat, mtu: nat): nat
    requires mtu >= 28
  {
    if left <= mtu - IP_HLEN then left else (mtu - IP_HLEN) / 8 * 8
  }

  function Fragments(payload: seq<u8>, mtu: nat, off: nat, mf: bool): (r: seq<Fragment>)
    requires mtu >= 28
    decreases |payload|
  {
    if payload == [] then []
    else
      var cop := Size(|payload|, mtu);
      [Fragment(off % 0x2000, mf || |payload| > mtu - IP_HLEN, payload[..cop])]
      + Fragments(payload[cop..], mtu, off + (mtu - IP_HLEN) / 8, mf)
  }

  /** Fragments laid end to end from byte `at` on, the last one ending at `end`: each starts on a
      unit of 8 bytes where the one before ended, and all but the last carry the MF bit. */
  ghost predicate Tiles(fs: seq<Fragment>, at: nat, end: nat, mf: bool) {
    if fs == [] then at == end
    else
      && fs[0].off * 8 == at && fs[0].data != []
      && fs[0].mf == (mf || |fs| > 1)
      && Tiles(fs[1..], at + |fs[0].data|, end, mf)
  }

  function Payload(fs: seq<Fragment>): seq<u8> {
    if fs == [] then [] else fs[0].data + Payload(fs[1..])
  }

  /** The fragments of any payload fit the MTU, tile it and add up to it. The MF bit of a packet
      that was a fragment itself stays on the last one. */
  lemma {:induction false} FragmentsOk(payload: seq<u8>, mtu: nat, off: nat, mf: bool)
    requires mtu >= 28 && off * 8 + |payload| < 0x1_0000
    ensures var fs := Fragments(payload, mtu, off, mf);
            && Tiles(fs, off * 8, off * 8 + |payload|, mf) && Payload(fs) == payload
            && (forall f :: f in fs ==> |f.data| + IP_HLEN <= mtu)
    decreases |payload|
  {
    if payload != [] {
      hide Fragments;
      var cop, nfb := Size(|payload|, mtu), (mtu - IP_HLEN) / 8;
      FragmentsNext(payload, mtu, off, mf);
      var fs, rest := Fragments(payload, mtu, off, mf), Fragments(payload[cop..], mtu, off + nfb, mf);
      assert fs[1..] == rest;
      if |payload| <= mtu - IP_HLEN {
        NoFragments(mtu, off + nfb, mf);
        assert payload[cop..] == [];
      } else {
        FragmentsOk(payload[cop..], mtu, off + nfb, mf);
        assert (off + nfb) * 8 == off * 8 + cop;
        assert rest != [] by { FragmentsNext(payload[cop..], mtu, off + nfb, mf); }
      }
      assert payload == payload[..cop] + payload[cop..];
    }
  }

  /** No more fragments than needed: all but the last hold as many units of 8 bytes as fit the MTU, and
      a payload that fits goes in one. */
  lemma {:induction false} FragmentsFull(payload: seq<u8>, mtu: nat, off: nat, mf: bool)
    requires mtu >= 28 && payload != []
    ensures var fs := Fragments(payload, mtu, off, mf);
            && fs != [] && (|fs| == 1 <==> |payload| <= mtu - IP_HLEN)
            && forall i :: 0 <= i < |fs| - 1 ==> |fs[i].data| % 8 == 0 && |fs[i].data| + 8 > mtu - IP_HLEN >= |fs[i].data|
    decreases |payload|
  {
    var cop := Size(|payload|, mtu);
    FragmentsNext(payload, mtu, off, mf);
    if |payload| > mtu - IP_HLEN {
      FragmentsFull(payload[cop..], mtu, off + (mtu - IP_HLEN) / 8, mf);
    } else {
      assert payload[cop..] == [];
    }
  }

  // ----- ip_frag

  /** The fragments a list of frames stands for. */
  function Sent(frames: seq<Frame>): seq<Fragment> {
    if frames == [] then []
    else Sent(frames[..|frames| - 1]) + [Meant(frames[|frames| - 1])]
  }

  function Meant(f: Frame): Fragment {
    Fragment(f.off, f.mf, Flat(f.pieces))
  }

  /** A frame whose header states its length and whose pbufs all hold something. */
  predicate WellFormed(f: Frame) {
    f.len == |Flat(f.pieces)| + IP_HLEN && [] !in f.pieces
  }

  /** The inner loop of ip_frag: mirror `cop` bytes of the chain, from the start of pbuf `p0` on.
      `poff` bytes of pbuf `p` are used up afterwards. */
  method Mirror(chain: seq<seq<u8>>, p0: nat, cop: nat, memory: nat)
    returns (pieces: seq<seq<u8>>, p: nat, poff: nat, left: nat, ok: bool)
    requires p0 < |chain| && 0 < cop <= |Flat(chain[p0..])|
    ensures p < |chain| && poff <= |chain[p]|
    ensures ok ==> [] !in pieces && |Flat(pieces)| == cop
    ensures ok ==> Flat(chain[p0..]) == Flat(pieces) + Flat([chain[p][poff..]] + chain[p + 1..])
    ensures memory - cop <= left && (!ok ==> memory < cop)
  {
    hide Flat;
    pieces, p, poff, left, ok := [], p0, 0, memory, true;
    var toCopy := cop;
    assert Flat([]) == [] by { FlatOne([]); }
    while toCopy > 0
      invariant 0 <= toCopy <= cop && p < |chain| && poff <= |chain[p]|
      invariant [] !in pieces && |Flat(pieces)| + toCopy == cop && left >= memory - (cop - toCopy)
      invariant toCopy > 0 ==> Flat(chain[p0..]) == Flat(pieces) + Flat(chain[p..])
      invariant toCopy == 0 ==> Flat(chain[p0..]) == Flat(pieces) + Flat([chain[p][poff..]] + chain[p + 1..])
      decreases |chain| - p, toCopy
    {
      var n := if toCopy < |chain[p]| then toCopy else |chain[p]|;
      FlatNext(chain, p, n);
      if n == 0 {
        assert chain[p] == [] && Flat(chain[p..]) == Flat(chain[p + 1..]);
        p, poff := p + 1, 0;
        continue;
      }
      if left == 0 {
        ok := false;
        return;
      }
      left := left - 1;
      FlatAppend(pieces, chain[p][..n]);
      pieces := pieces + [chain[p][..n]];
      toCopy := toCopy - n;
      poff := n;
      if toCopy > 0 {
        p, poff := p + 1, 0;
      }
    }
  }

  lemma FlatNext(chain: seq<seq<u8>>, p: nat, n: nat)
    requires p < |chain| && n <= |chain[p]|
    ensures Flat(chain[p..]) == chain[p] + Flat(chain[p + 1..])
    ensures Flat(chain[p..]) == chain[p][..n] + Flat([chain[p][n..]] + chain[p + 1..])
    ensures p + 1 == |chain| ==> Flat(chain[p + 1..]) == []
  {
    assert chain[p..][1..] == chain[p + 1..];
    assert ([chain[p][n..]] + chain[p + 1..])[1..] == chain[p + 1..];
  }

  /** What is left of the chain behind the first `poff` bytes of pbuf `p`. */
  ghost function Rest(chain: seq<seq<u8>>, p: nat, poff: nat): seq<u8>
    requires p < |chain| && poff <= |chain[p]|
  {
    Flat([chain[p][poff..]] + chain[p + 1..])
  }

  lemma HeaderOff(packet: seq<seq<u8>>)
    requires packet != [] && |packet[0]| >= IP_HLEN
    ensures |Flat(packet)| >= IP_HLEN && Flat(packet)[IP_HLEN..] == Rest(packet, 0, IP_HLEN) && Sent([]) == []
  {
    FlatNext(packet, 0, IP_HLEN);
    assert packet[0..] == packet;
  }

  lemma FragmentsNext(payload: seq<u8>, mtu: nat, off: nat, mf: bool)
    requires mtu >= 28 && payload != []
    ensures var cop := Size(|payload|, mtu);
            Fragments(payload, mtu, off, mf) ==
            [Fragment(off % 0x2000, mf || |payload| > mtu - IP_HLEN, payload[..cop])]
            + Fragments(payload[cop..], mtu, off + (mtu - IP_HLEN) / 8, mf)
  {
  }

  lemma SentNext(sent: seq<Frame>, f: Frame)
    ensures Sent(sent + [f]) == Sent(sent) + [Meant(f)]
  {
    assert (sent + [f])[..|sent|] == sent;
  }

  /** p->tot_len */
  function Total(chain: seq<seq<u8>>): (n: nat)
    ensures n == |Flat(chain)|
  {
    if chain == [] then 0 else |chain[0]| + Total(chain[1..])
  }

  /** ip_frag. The packet starts with its 20-byte header, in one piece; there is memory for `memory`
      more pbufs. All fragments go out in order, or an initial part of them when memory runs out. */
  method SendFragments(packet: seq<seq<u8>>, mtu: u16, off: u16, mf: bool, memory: nat)
    returns (sent: seq<Frame>, ok: bool)
    requires packet != [] && |packet[0]| >= IP_HLEN && |Flat(packet)| < 0x1_0000
    requires mtu >= 28 && off <= IP_OFFMASK
    ensures forall f :: f in sent ==> WellFormed(f) && f.len <= mtu
    ensures ok ==> Sent(sent) == Fragments(Flat(packet)[IP_HLEN..], mtu, off, mf)
    ensures !ok ==> Sent(sent) < Fragments(Flat(packet)[IP_HLEN..], mtu, off, mf)
    ensures memory >= 2 * |Flat(packet)| ==> ok
  {
    hide Flat, Fragments, Sent;
    HeaderOff(packet);
    ghost var all := Fragments(Flat(packet)[IP_HLEN..], mtu, off, mf);
    var chain, p: nat, poff: nat, ofo: u16 := packet, 0, IP_HLEN, off;
    var left: nat, memory': nat := Total(packet) - IP_HLEN, memory;
    var nfb := (mtu - IP_HLEN) / 8;
    sent, ok := [], true;
    while left > 0
      invariant p < |chain| && poff <= |chain[p]|
      invariant left == |Rest(chain, p, poff)| && (left > 0 ==> ofo * 8 + left < 0x2_0000)
      invariant all == Sent(sent) + Fragments(Rest(chain, p, poff), mtu, ofo, mf)
      invariant forall f :: f in sent ==> WellFormed(f) && f.len <= mtu
      invariant ok && (memory >= 2 * |Flat(packet)| ==> memory' >= 2 * left)
      decreases left
    {
      ghost var rest := Rest(chain, p, poff);
      FragmentsNext(rest, mtu, ofo, mf);
      var last := left <= mtu - IP_HLEN;
      var tmp: u16 := ofo % 0x2000;
      var cop := if last then left else nfb * 8;
      if memory' == 0 {
        ok := false;
        return;
      }
      memory' := memory' - 1;
      chain := chain[p := chain[p][poff..]];
      assert chain[p..] == [chain[p]] + chain[p + 1..];
      var pieces;
      pieces, p, poff, memory', ok := Mirror(chain, p, cop, memory');
      if !ok {
        return;
      }
      assert rest[..cop] == Flat(pieces) && rest[cop..] == Rest(chain, p, poff);
      var frame := Frame(tmp, mf || !last, cop + IP_HLEN, pieces);
      SentNext(sent, frame);
      sent := sent + [frame];
      left := left - cop;
      ofo := ofo + nfb;
    }
    assert Fragments(Rest(chain, p, poff), mtu, ofo, mf) == [] by { NoFragments(mtu, ofo, mf); }
  }

  lemma NoFragments(mtu: nat, off: nat, mf: bool)
    requires mtu >= 28
    ensures Fragments([], mtu, off, mf) == []
  {
  }
}
