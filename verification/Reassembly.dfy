/**
 ip_reass and ip_reass_tmr: the list of datagrams being reassembled, kept in place.
 */
module Reassembly {
  import opened Basics
  import opened IpFrag
  import opened IpReass

  const MAXAGE: nat := 3
  const MAX_PBUFS: nat := 10

  /** Source, destination and identification of a datagram. */
  datatype Key = Key(src: int, dest: int, id: u16)

  datatype Entry = Entry(key: Key, timer: nat, gram: Gram)

  /** A returned datagram: payload, and length stated in the rebuilt header. */
  datatype Packet = Packet(data: seq<u8>, len: u16)

  // ----- chaining one fragment

  lemma PosIs(q: seq<Piece>, n: Piece, i: nat)
    requires i <= |q| && (forall j :: 0 <= j < i ==> q[j].start < n.start && q[j].end <= n.start)
    requires i < |q| ==> n.start <= q[i].start || n.start < q[i].end
    ensures Pos(q, n) == i
  {
  }

  /** The walk that links a fragment in; `valid` says whether a hole was seen on the way. */
  method Link(q: seq<Piece>, n: Piece) returns (r: seq<Piece>, i: nat, kept: bool, valid: bool)
    ensures i == Pos(q, n) && kept == !Refused(q, n) && r == (if kept then Linked(q, n) else q)
    ensures kept ==> (valid <==> forall j: nat :: j < i && j + 1 < |r| && !Unchecked(r, i, j) ==> Abuts(r, j))
  {
    hide Pos;
    i, kept, valid, r := 0, true, true, q;
    while i < |q|
      invariant 0 <= i <= |q| && kept && r == q
      invariant forall j :: 0 <= j < i ==> q[j].start < n.start && q[j].end <= n.start
      invariant valid <==> forall j: nat :: j + 1 < i ==> Abuts(q, j)
    {
      if n.start < q[i].start {
        PosIs(q, n, i);
        if i > 0 && (n.start < q[i - 1].end || n.end > q[i].start) {
          kept := false;
          return;
        }
        break;
      } else if n.start == q[i].start {
        PosIs(q, n, i);
        kept := false;
        return;
      } else if n.start < q[i].end {
        PosIs(q, n, i);
        kept := false;
        return;
      } else if i > 0 && q[i - 1].end != q[i].start {
        assert !Abuts(q, i - 1);
        valid := false;
      }
      i := i + 1;
    }
    PosIs(q, n, i);
    ghost var before := valid;
    if i == |q| && i > 0 && q[i - 1].end != n.start {
      valid := false;
    }
    r := q[..i] + [n] + q[i..];
    LinkValid(q, n, i, r, before, valid);
  }

  lemma LinkValid(q: seq<Piece>, n: Piece, i: nat, r: seq<Piece>, before: bool, valid: bool)
    requires i <= |q| && r == q[..i] + [n] + q[i..]
    requires before <==> forall j: nat :: j + 1 < i ==> Abuts(q, j)
    requires valid <==> before && !(i == |q| && i > 0 && q[i - 1].end != n.start)
    ensures valid <==> forall j: nat :: j < i && j + 1 < |r| && !Unchecked(r, i, j) ==> Abuts(r, j)
  {
    assert forall j: nat :: j + 1 < i ==> Abuts(r, j) == Abuts(q, j);
    if !before {
      var j: nat :| j + 1 < i && !Abuts(q, j);
      assert !Unchecked(r, i, j) && !Abuts(r, j);
    }
    if before && i == |q| && i > 0 && q[i - 1].end != n.start {
      assert !Unchecked(r, i, i - 1) && !Abuts(r, i - 1);
    }
  }

  /** ip_reass_chain_frag_into_datagram_and_validate */
  method ChainFragment(g: Gram, n: Piece) returns (r: seq<Piece>, kept: bool, done: bool)
    ensures kept == !Refused(g.queue, n) && r == Chain(g, n).queue && done == Done(g, n)
  {
    hide Refused, Abuts, Unchecked;
    var i, valid;
    r, i, kept, valid := Link(g.queue, n);
    if !kept {
      return r, false, false;
    }
    if g.last {
      if valid {
        if r[0].start != 0 {
          valid := false;
        } else {
          var k := i;
          while k + 1 < |r|
            invariant i <= k < |r|
            invariant forall j: nat :: i <= j < k ==> Abuts(r, j)
          {
            assert Abuts(r, k) <==> r[k].end == r[k + 1].start by { AbutsIs(r, k); }
            if r[k].end != r[k + 1].start {
              assert !Unchecked(r, i, k) by { AbutsIs(r, k); }
              valid := false;
              break;
            }
            k := k + 1;
          }
        }
      }
      done := valid;
    } else {
      done := false;
    }
    CheckedIs(r, i);
  }

  lemma AbutsIs(r: seq<Piece>, k: nat)
    requires k + 1 < |r|
    ensures Abuts(r, k) <==> r[k].end == r[k + 1].start
    ensures forall i: nat :: i <= k ==> !Unchecked(r, i, k)
  {
  }

  lemma CheckedIs(r: seq<Piece>, i: nat)
    ensures Checked(r, i) <==>
              && (forall j: nat :: j < i && j + 1 < |r| && !Unchecked(r, i, j) ==> Abuts(r, j))
              && (forall j: nat :: i <= j && j + 1 < |r| ==> Abuts(r, j))
  {
    if Checked(r, i) {
      forall j: nat | i <= j && j + 1 < |r| ensures Abuts(r, j) {
        assert !Unchecked(r, i, j);
      }
    }
  }

  // ----- the list of datagrams

  function Get(list: seq<Entry>, key: Key): Option<Entry> {
    if list == [] then None else if list[0].key == key then Some(list[0]) else Get(list[1..], key)
  }

  /** The datagram a fragment belongs to, a new one if there is none. */
  function Known(list: seq<Entry>, key: Key): Entry {
    if Get(list, key) == None then Entry(key, MAXAGE, EMPTY) else Get(list, key).value
  }

  function Pbufs(q: seq<Piece>): nat {
    if q == [] then 0 else q[0].clen + Pbufs(q[1..])
  }

  function Count(list: seq<Entry>): nat {
    if list == [] then 0 else Pbufs(list[0].gram.queue) + Count(list[1..])
  }

  ghost predicate ListOk(list: seq<Entry>) {
    && (forall e :: e in list ==> e.timer <= MAXAGE)
    && (forall i, j :: 0 <= i < j < |list| ==> list[i].key != list[j].key)
  }

  lemma {:induction false} PbufsJoin(a: seq<Piece>, b: seq<Piece>)
    ensures Pbufs(a + b) == Pbufs(a) + Pbufs(b)
    decreases |a|
  {
    if a == [] {
      assert a + b == b;
    } else {
      PbufsJoin(a[1..], b);
      assert (a + b)[1..] == a[1..] + b;
    }
  }

  lemma PbufsLinked(q: seq<Piece>, n: Piece)
    ensures Pbufs(Linked(q, n)) == Pbufs(q) + n.clen
  {
    var i := Pos(q, n);
    PbufsJoin(q[..i], q[i..]);
    PbufsJoin(q[..i] + [n], q[i..]);
    PbufsJoin(q[..i], [n]);
    assert q[..i] + q[i..] == q && [n][1..] == [];
  }

  lemma {:induction false} CountJoin(a: seq<Entry>, b: seq<Entry>)
    ensures Count(a + b) == Count(a) + Count(b)
    decreases |a|
  {
    if a == [] {
      assert a + b == b;
    } else {
      CountJoin(a[1..], b);
      assert (a + b)[1..] == a[1..] + b;
    }
  }

  lemma {:induction false} GetJoin(a: seq<Entry>, b: seq<Entry>, key: Key)
    ensures Get(a + b, key) == if Get(a, key) == None then Get(b, key) else Get(a, key)
    decreases |a|
  {
    if a == [] {
      assert a + b == b;
    } else {
      GetJoin(a[1..], b, key);
      assert (a + b)[1..] == a[1..] + b;
    }
  }

  /** A list taken apart at one entry. */
  lemma Around(list: seq<Entry>, i: nat, key: Key)
    requires i < |list|
    ensures Count(list) == Count(list[..i]) + Pbufs(list[i].gram.queue) + Count(list[i + 1..])
    ensures Get(list, key) ==
            if Get(list[..i], key) != None then Get(list[..i], key)
            else if list[i].key == key then Some(list[i]) else Get(list[i + 1..], key)
  {
    assert list == list[..i] + list[i..] && list[i..][1..] == list[i + 1..];
    CountJoin(list[..i], list[i..]);
    GetJoin(list[..i], list[i..], key);
  }

  lemma {:induction false} GetNone(list: seq<Entry>, key: Key)
    ensures Get(list, key) == None <==> forall e :: e in list ==> e.key != key
    decreases |list|
  {
    if list != [] {
      GetNone(list[1..], key);
      assert forall e :: e in list ==> e == list[0] || e in list[1..];
    }
  }

  /** Replacing or removing entry `i`. */
  lemma Edit(list: seq<Entry>, i: nat, e: Entry, k: Key)
    requires i < |list| && ListOk(list) && e.key == list[i].key
    ensures Get(list, list[i].key) == Some(list[i])
    ensures Count(list[i := e]) == Count(list) - Pbufs(list[i].gram.queue) + Pbufs(e.gram.queue)
    ensures Count(list[..i] + list[i + 1..]) == Count(list) - Pbufs(list[i].gram.queue)
    ensures Get(list[i := e], k) == if k == e.key then Some(e) else Get(list, k)
    ensures Get(list[..i] + list[i + 1..], k) == if k == e.key then None else Get(list, k)
  {
    hide Get, Count;
    Around(list, i, k);
    Around(list, i, list[i].key);
    Around(list[i := e], i, k);
    assert list[i := e][..i] == list[..i] && list[i := e][i + 1..] == list[i + 1..];
    GetJoin(list[..i], list[i + 1..], k);
    CountJoin(list[..i], list[i + 1..]);
    GetNone(list[..i], e.key);
    GetNone(list[i + 1..], e.key);
  }

  lemma EditOk(list: seq<Entry>, i: nat, e: Entry)
    requires i < |list| && ListOk(list) && e.key == list[i].key
    ensures e.timer <= MAXAGE ==> ListOk(list[i := e])
    ensures ListOk(list[..i] + list[i + 1..])
  {
    assert forall x :: x in list[..i] + list[i + 1..] ==> x in list;
  }

  lemma ChainCount(g: Gram, n: Piece)
    ensures Chain(g, n).queue != []
    ensures Pbufs(Chain(g, n).queue) == Pbufs(g.queue) + if Refused(g.queue, n) then 0 else n.clen
    ensures Done(g, n) ==> !Refused(g.queue, n) && Chain(g, n).queue == Linked(g.queue, n)
  {
    hide Pbufs;
    PbufsLinked(g.queue, n);
  }

  lemma TimerOk(list: seq<Entry>, i: nat)
    requires ListOk(list) && i < |list|
    ensures list[i].timer <= MAXAGE
  {
  }

  class Reassembler {
    var list: seq<Entry>
    var pbufs: nat  // ip_reass_pbufcount

    ghost predicate Valid()
      reads this
    {
      && ListOk(list) && pbufs == Count(list) <= MAX_PBUFS
      && (forall e :: e in list ==> e.gram.queue != [])
    }

    constructor ()
      ensures Valid() && list == []
    {
      list, pbufs := [], 0;
    }

    /** Look for the datagram of a fragment. */
    method Find(key: Key) returns (i: nat)
      ensures i <= |list| && (i < |list| ==> list[i].key == key && Get(list, key) == Some(list[i]))
      ensures i == |list| <==> Get(list, key) == None
    {
      i := 0;
      assert list[0..] == list;
      while i < |list|
        invariant i <= |list| && Get(list, key) == Get(list[i..], key)
      {
        if list[i].key == key {
          return;
        }
        assert list[i..][1..] == list[i + 1..];
        i := i + 1;
      }
    }

    /** Chain the queued pbufs into one. */
    method Assemble(q: seq<Piece>) returns (data: seq<u8>, clen: nat)
      ensures data == Data(q) && clen == Pbufs(q)
    {
      data, clen := [], 0;
      var k := 0;
      assert q[0..] == q;
      while k < |q|
        invariant 0 <= k <= |q| && Data(q) == data + Data(q[k..]) && Pbufs(q) == clen + Pbufs(q[k..])
      {
        assert q[k..][1..] == q[k + 1..];
        data, clen := data + q[k].data, clen + q[k].clen;
        k := k + 1;
      }
    }

    /** Put the fragment into datagram `i`; when that completes it, take it off the list. */
    method Queue(i: nat, n: Piece, mf: bool) returns (r: Option<Packet>)
      requires ListOk(list) && pbufs == Count(list) + n.clen <= MAX_PBUFS
      requires i < |list| && forall j :: 0 <= j < |list| && j != i ==> list[j].gram.queue != []
      modifies this
      ensures Valid()
      ensures var e := old(list)[i];
              var g := Note(e.gram, n, mf);
              if Done(g, n) then
                && r == Some(Packet(Data(Linked(g.queue, n)), (g.len + IP_HLEN) % 0x1_0000))
                && list == old(list)[..i] + old(list)[i + 1..]
                && pbufs == old(pbufs) - n.clen - Pbufs(e.gram.queue)
              else
                && r == None && list == old(list)[i := e.(gram := Chain(g, n))]
                && pbufs == old(pbufs) - if Refused(g.queue, n) then n.clen else 0
    {
      hide Count, Pbufs, Done, Linked, Pos, ListOk, Data, Get;
      var e := list[i];
      var g := if mf then e.gram else e.gram.(last := true, len := n.end);
      var q, kept, done := ChainFragment(g, n);
      ChainCount(g, n);
      var e' := e.(gram := g.(queue := q));
      Edit(list, i, e', e.key);
      EditOk(list, i, e');
      TimerOk(list, i);
      if !kept {
        pbufs := pbufs - n.clen;
      }
      if done {
        var data, clen := Assemble(q);
        r := Some(Packet(data, (g.len + IP_HLEN) % 0x1_0000));
        list := list[..i] + list[i + 1..];
        pbufs := pbufs - clen;
      } else {
        r := None;
        list := list[i := e'];
      }
    }

    /** ip_reass: a fragment of `clen` pbufs arrives; `memory` says whether a new datagram could be
        entered. Other datagrams are not touched. */
    method Input(key: Key, hl: nat, off: u16, mf: bool, data: seq<u8>, clen: nat, memory: bool)
      returns (r: Option<Packet>)
      requires Valid() && off <= IP_OFFMASK && |data| < 0x1_0000
      modifies this
      ensures Valid()
      ensures hl != 5 || old(pbufs) + clen > MAX_PBUFS || (Get(old(list), key) == None && !memory) ==>
                list == old(list) && pbufs == old(pbufs) && r == None
      ensures !(hl != 5 || old(pbufs) + clen > MAX_PBUFS || (Get(old(list), key) == None && !memory)) ==>
                var n := Piece(off * 8, (off * 8 + |data|) % 0x1_0000, data, clen);
                var e := Known(old(list), key);
                var g := Note(e.gram, n, mf);
                if Done(g, n) then
                  && r == Some(Packet(Data(Linked(g.queue, n)), (g.len + IP_HLEN) % 0x1_0000))
                  && Get(list, key) == None && pbufs == old(pbufs) - Pbufs(e.gram.queue)
                else
                  && r == None && Get(list, key) == Some(e.(gram := Chain(g, n)))
                  && pbufs == old(pbufs) + if Refused(g.queue, n) then 0 else clen
      ensures forall k :: k != key ==> Get(list, k) == Get(old(list), k)
    {
      hide Get, Count, Pbufs, Done, Linked, Refused, ListOk, Data, Chain, Note;
      if hl != 5 || pbufs + clen > MAX_PBUFS {
        return None;
      }
      var i := Find(key);
      if i == |list| {
        if !memory {
          return None;
        }
        EnterOk(list, key);
        list := [Entry(key, MAXAGE, EMPTY)] + list;
        i := 0;
      }
      var n := Piece(off * 8, (off * 8 + |data|) % 0x1_0000, data, clen);
      pbufs := pbufs + clen;
      ghost var l := list;
      EditAll(list, i);
      r := Queue(i, n, mf);
    }

    /** ip_reass_tmr, once a second: datagrams grow older, those at zero are freed. Returned are
        the datagrams whose sender is told that time was exceeded. */
    method Tick() returns (exceeded: seq<Key>)
      requires Valid()
      modifies this
      ensures Valid()
      ensures list == Aged(old(list)) && exceeded == Exceeded(old(list))
    {
      AgedOk(list);
      list, pbufs, exceeded := AgeList(list, pbufs);
    }
  }

  // ----- the round trip through ip_reass

  /** A fragment that arrives, in `clen` pbufs; `memory`: could a datagram be entered for it? */
  datatype Arrival = Arrival(key: Key, frag: Fragment, clen: nat, memory: bool)

  function PieceOf(a: Arrival): Piece
    requires a.frag.off <= IP_OFFMASK
  {
    Piece(a.frag.off * 8, (a.frag.off * 8 + |a.frag.data|) % 0x1_0000, a.frag.data, a.clen)
  }

  predicate ArrivalOk(a: Arrival) {
    a.frag.off <= IP_OFFMASK && |a.frag.data| < 0x1_0000
  }

  function TotalClen(arrivals: seq<Arrival>): nat {
    if arrivals == [] then 0 else arrivals[0].clen + TotalClen(arrivals[1..])
  }

  /** Among the arrivals, those of datagram `key` are the pieces of `f` numbered `ks`. */
  ghost predicate Brings(arrivals: seq<Arrival>, key: Key, f: seq<Piece>, ks: seq<nat>) {
    if arrivals == [] then ks == []
    else
      && ArrivalOk(arrivals[0])
      && if arrivals[0].key != key then Brings(arrivals[1..], key, f, ks)
         else
           && ks != [] && ks[0] < |f| && PieceOf(arrivals[0]) == f[ks[0]]
           && arrivals[0].frag.mf == (ks[0] + 1 < |f|) && arrivals[0].memory
           && Brings(arrivals[1..], key, f, ks[1..])
  }

  lemma {:induction false} BringsPieces(arrivals: seq<Arrival>, key: Key, f: seq<Piece>, ks: seq<nat>)
    requires Brings(arrivals, key, f, ks)
    ensures forall k :: k in ks ==> k < |f|
    decreases |arrivals|
  {
    if arrivals != [] {
      if arrivals[0].key != key {
        BringsPieces(arrivals[1..], key, f, ks);
      } else {
        BringsPieces(arrivals[1..], key, f, ks[1..]);
        assert ks == [ks[0]] + ks[1..];
      }
    }
  }

  /** What the stack gets back when a datagram is found complete. */
  function Answer(r: Option<Completion>): Option<Packet> {
    if r == None then None else Some(Packet(r.value.data, (r.value.len + IP_HLEN) % 0x1_0000))
  }

  lemma RunStep(g: Gram, f: seq<Piece>, ks: seq<nat>)
    requires ks != [] && forall k :: k in ks ==> k < |f|
    ensures ks[0] < |f| && forall k :: k in ks[1..] ==> k < |f|
    ensures var n := f[ks[0]];
            var g1 := Note(g, n, ks[0] + 1 < |f|);
            Answer(Run(g, f, ks)) ==
            if Done(g1, n) then Some(Packet(Data(Linked(g.queue, n)), (g1.len + IP_HLEN) % 0x1_0000))
            else Answer(Run(Chain(g1, n), f, ks[1..]))
  {
    assert ks[0] in ks;
    assert forall k :: k in ks[1..] ==> k in ks;
  }

  lemma RunNone(g: Gram, f: seq<Piece>)
    ensures Run(g, f, []) == None
  {
  }

  /** Fragments handed to ip_reass one by one, those of one datagram among those of others, until
      that datagram is returned. As long as the pbuf limit is not hit the answer is that of `Run`,
      and datagrams that got no fragment are left alone. */
  method Deliver(ra: Reassembler, arrivals: seq<Arrival>, key: Key, ghost f: seq<Piece>, ghost ks: seq<nat>)
    returns (r: Option<Packet>)
    requires ra.Valid() && Get(ra.list, key) == None
    requires Brings(arrivals, key, f, ks) && ra.pbufs + TotalClen(arrivals) <= MAX_PBUFS
    modifies ra
    ensures ra.Valid()
    ensures (forall k :: k in ks ==> k < |f|) && r == Answer(Run(EMPTY, f, ks))
    ensures r != None ==> Get(ra.list, key) == None
    ensures forall k :: k != key && (forall a :: a in arrivals ==> a.key != k) ==> Get(ra.list, k) == Get(old(ra.list), k)
  {
    hide Get, Run, Done, Linked, Chain, Refused, Data, Count, Pbufs;
    BringsPieces(arrivals, key, f, ks);
    r := None;
    var i := 0;
    ghost var g: Gram, rest: seq<nat> := EMPTY, ks;
    assert arrivals[0..] == arrivals;
    while i < |arrivals|
      invariant 0 <= i <= |arrivals| && ra.Valid() && ra.pbufs + TotalClen(arrivals[i..]) <= MAX_PBUFS
      invariant Brings(arrivals[i..], key, f, rest) && Known(ra.list, key).gram == g
      invariant forall k :: k in rest ==> k < |f|
      invariant Answer(Run(EMPTY, f, ks)) == Answer(Run(g, f, rest))
      invariant forall k :: k != key && (forall a :: a in arrivals ==> a.key != k) ==> Get(ra.list, k) == Get(old(ra.list), k)
    {
      var a := arrivals[i];
      assert arrivals[i..][0] == a && arrivals[i..][1..] == arrivals[i + 1..];
      var p := ra.Input(a.key, 5, a.frag.off, a.frag.mf, a.frag.data, a.clen, a.memory);
      i := i + 1;
      if a.key == key {
        RunStep(g, f, rest);
        if p != None {
          return p;
        }
        g := Chain(Note(g, PieceOf(a), a.frag.mf), PieceOf(a));
        rest := rest[1..];
      }
    }
    assert arrivals[i..] == [];
    RunNone(g, f);
  }

  /** The arrivals of one datagram, and the fragments they bring. */
  function Own(arrivals: seq<Arrival>, key: Key): seq<Arrival> {
    if arrivals == [] then []
    else (if arrivals[0].key == key then [arrivals[0]] else []) + Own(arrivals[1..], key)
  }

  function Frags(arrivals: seq<Arrival>): seq<Fragment> {
    seq(|arrivals|, i requires 0 <= i < |arrivals| => arrivals[i].frag)
  }

  function Backwards<T>(s: seq<T>): seq<T> {
    seq(|s|, i requires 0 <= i < |s| => s[|s| - 1 - i])
  }

  lemma {:induction false} OwnBrings(arrivals: seq<Arrival>, key: Key, f: seq<Piece>, ks: seq<nat>)
    requires forall a :: a in arrivals ==> ArrivalOk(a)
    requires |Own(arrivals, key)| == |ks|
    requires forall j :: 0 <= j < |ks| ==> var a := Own(arrivals, key)[j];
               a.frag.off <= IP_OFFMASK && a.memory
               && ks[j] < |f| && PieceOf(a) == f[ks[j]] && a.frag.mf == (ks[j] + 1 < |f|)
    ensures Brings(arrivals, key, f, ks)
    decreases |arrivals|
  {
    if arrivals != [] {
      var rest := Own(arrivals[1..], key);
      if arrivals[0].key == key {
        assert Own(arrivals, key)[0] == arrivals[0];
        assert forall j :: 0 <= j < |rest| ==> rest[j] == Own(arrivals, key)[j + 1];
        OwnBrings(arrivals[1..], key, f, ks[1..]);
      } else {
        assert Own(arrivals, key) == rest;
        OwnBrings(arrivals[1..], key, f, ks);
      }
    }
  }

  lemma {:induction false} OwnMember(arrivals: seq<Arrival>, key: Key)
    ensures forall a :: a in Own(arrivals, key) ==> a in arrivals && a.key == key
    decreases |arrivals|
  {
    if arrivals != [] {
      OwnMember(arrivals[1..], key);
    }
  }

  lemma {:induction false} TilesBound(fs: seq<Fragment>, at: nat, end: nat, mf: bool)
    requires Tiles(fs, at, end, mf)
    ensures at <= end && forall j :: 0 <= j < |fs| ==> fs[j].off * 8 + |fs[j].data| <= end
    decreases |fs|
  {
    if fs != [] {
      TilesBound(fs[1..], at + |fs[0].data|, end, mf);
      assert forall j :: 0 < j < |fs| ==> fs[j] == fs[1..][j - 1];
    }
  }

  /** The pieces the fragments of a payload are queued as, whatever their order of arrival. */
  lemma OwnPieces(payload: seq<u8>, mtu: nat, own: seq<Arrival>) returns (f: seq<Piece>)
    requires mtu >= 28 && 0 < |payload| < 0x1_0000
    requires Frags(own) == Fragments(payload, mtu, 0, false)
    ensures |f| == |own| && IpReass.Carries(f, Fragments(payload, mtu, 0, false))
    ensures forall j :: 0 <= j < |own| ==> own[j].frag.off <= IP_OFFMASK && f[j] == PieceOf(own[j])
    ensures forall j :: 0 <= j < |own| ==> own[j].frag.mf == (j + 1 < |f|)
  {
    hide Fragments, Tiles, Run, Payload;
    var fs := Fragments(payload, mtu, 0, false);
    FragmentsOk(payload, mtu, 0, false);
    TilesBound(fs, 0, |payload|, false);
    forall j | 0 <= j < |own| ensures own[j].frag == fs[j] && fs[j].off * 8 + |fs[j].data| <= |payload| {
      assert Frags(own)[j] == own[j].frag;
    }
    f := seq(|own|, j requires 0 <= j < |own| => PieceOf(own[j]));
    IpReass.RoundTrip(payload, mtu, f);
  }

  /** Fragments of a payload, first to last or last to first, among fragments of other datagrams:
      ip_reass rebuilds payload and length when the pbuf limit is not hit. */
  method RoundTrip(ra: Reassembler, arrivals: seq<Arrival>, key: Key, ghost payload: seq<u8>, ghost mtu: nat)
    returns (r: Option<Packet>)
    requires ra.Valid() && Get(ra.list, key) == None
    requires forall a :: a in arrivals ==> ArrivalOk(a) && (a.key == key ==> a.memory)
    requires mtu >= 28 && 0 < |payload| < 0x1_0000 && ra.pbufs + TotalClen(arrivals) <= MAX_PBUFS
    requires var sent := Fragments(payload, mtu, 0, false);
             Frags(Own(arrivals, key)) == sent || Frags(Own(arrivals, key)) == Backwards(sent)
    modifies ra
    ensures ra.Valid()
    ensures r == Some(Packet(payload, (|payload| + IP_HLEN) % 0x1_0000))
    ensures Get(ra.list, key) == None
    ensures forall k :: k != key && (forall a :: a in arrivals ==> a.key != k) ==> Get(ra.list, k) == Get(old(ra.list), k)
  {
    hide Fragments, Brings, Run, Get, TotalClen, Own;
    ghost var f, ks := TripPieces(arrivals, key, payload, mtu);
    r := Deliver(ra, arrivals, key, f, ks);
  }

  lemma TripPieces(arrivals: seq<Arrival>, key: Key, payload: seq<u8>, mtu: nat) returns (f: seq<Piece>, ks: seq<nat>)
    requires forall a :: a in arrivals ==> ArrivalOk(a) && (a.key == key ==> a.memory)
    requires mtu >= 28 && 0 < |payload| < 0x1_0000
    requires var sent := Fragments(payload, mtu, 0, false);
             Frags(Own(arrivals, key)) == sent || Frags(Own(arrivals, key)) == Backwards(sent)
    ensures Brings(arrivals, key, f, ks) && forall k :: k in ks ==> k < |f|
    ensures Returned(Run(EMPTY, f, ks), payload)
  {
    hide Fragments, Brings, Run, Own;
    var own, sent := Own(arrivals, key), Fragments(payload, mtu, 0, false);
    OwnMember(arrivals, key);
    if Frags(own) == sent {
      f := OwnPieces(payload, mtu, own);
      ks := InOrder(|f|);
    } else {
      var back := Backwards(own);
      assert Frags(back) == sent by {
        assert |Frags(back)| == |sent|;
        forall i | 0 <= i < |sent| ensures Frags(back)[i] == sent[i] {
          assert Frags(own)[|own| - 1 - i] == Backwards(sent)[|own| - 1 - i];
        }
      }
      f := OwnPieces(payload, mtu, back);
      ks := Reversed(|f|);
      assert forall j :: 0 <= j < |own| ==> own[j] == back[|own| - 1 - j];
    }
    IpReass.RoundTrip(payload, mtu, f);
    OwnBrings(arrivals, key, f, ks);
  }

  /** Give back all pbufs of a datagram. */
  method FreePbufs(q: seq<Piece>) returns (n: nat)
    ensures n == Pbufs(q)
  {
    n := 0;
    var k := 0;
    assert q[0..] == q;
    while k < |q|
      invariant 0 <= k <= |q| && Pbufs(q) == n + Pbufs(q[k..])
    {
      assert q[k..][1..] == q[k + 1..];
      n := n + q[k].clen;
      k := k + 1;
    }
  }

  /** The walk of ip_reass_tmr. */
  method AgeList(l: seq<Entry>, pbufs: nat) returns (list: seq<Entry>, left: nat, exceeded: seq<Key>)
    requires pbufs == Count(l) && forall e :: e in l ==> e.gram.queue != []
    ensures list == Aged(l) && exceeded == Exceeded(l) && left == Count(list) <= pbufs
  {
    hide Count, Pbufs, Aged, Exceeded;
    AgedStart(l);
    var i := 0;
    list, left, exceeded := l, pbufs, [];
    ghost var n: nat := 0;
    while i < |list|
      invariant 0 <= i <= |list| && n <= |l| && list[i..] == l[n..]
      invariant Aged(l) == list[..i] + Aged(l[n..])
      invariant Exceeded(l) == exceeded + Exceeded(l[n..])
      invariant left == Count(list) <= pbufs
      decreases |l| - n
    {
      var e := list[i];
      ghost var was := list;
      assert e == l[n] && l[n + 1..] == l[n..][1..] == list[i + 1..];
      AgedNext(l, n);
      AgeCount(list, i);
      if e.timer > 0 {
        list := list[i := e.(timer := e.timer - 1)];
        assert list[..i + 1] == was[..i] + [list[i]];
        i := i + 1;
      } else {
        if e.gram.queue[0].start == 0 {
          exceeded := exceeded + [e.key];
        }
        var freed := FreePbufs(e.gram.queue);
        list := list[..i] + list[i + 1..];
        left := left - freed;
      }
      n := n + 1;
    }
    assert l[n..] == [] && list[..i] == list;
    AgedStart(l[n..]);
  }

  lemma AgeCount(list: seq<Entry>, i: nat)
    requires i < |list|
    ensures Count(list[..i] + list[i + 1..]) == Count(list) - Pbufs(list[i].gram.queue)
    ensures forall t: nat :: Count(list[i := list[i].(timer := t)]) == Count(list)
  {
    hide Count, Pbufs;
    Around(list, i, list[i].key);
    CountJoin(list[..i], list[i + 1..]);
    forall t: nat ensures Count(list[i := list[i].(timer := t)]) == Count(list) {
      var l := list[i := list[i].(timer := t)];
      Around(l, i, list[i].key);
      assert l[..i] == list[..i] && l[i + 1..] == list[i + 1..];
    }
  }

  function Aged(list: seq<Entry>): seq<Entry> {
    if list == [] then []
    else (if list[0].timer > 0 then [list[0].(timer := list[0].timer - 1)] else []) + Aged(list[1..])
  }

  /** The datagrams given up, as far as their first fragment had arrived. */
  function Exceeded(list: seq<Entry>): seq<Key>
    requires forall e :: e in list ==> e.gram.queue != []
  {
    if list == [] then []
    else
      assert forall e :: e in list[1..] ==> e in list;
      (if list[0].timer == 0 && list[0].gram.queue[0].start == 0 then [list[0].key] else []) + Exceeded(list[1..])
  }

  lemma AgedStart(l: seq<Entry>)
    requires forall e :: e in l ==> e.gram.queue != []
    ensures l[0..] == l && (l == [] ==> Aged(l) == [] && Exceeded(l) == [])
  {
  }

  lemma AgedNext(l: seq<Entry>, n: nat)
    requires n < |l| && forall e :: e in l[n..] ==> e.gram.queue != []
    ensures l[n..][1..] == l[n + 1..] && (forall e :: e in l[n + 1..] ==> e.gram.queue != [])
    ensures Aged(l[n..]) == (if l[n].timer > 0 then [l[n].(timer := l[n].timer - 1)] else []) + Aged(l[n + 1..])
    ensures Exceeded(l[n..]) ==
            (if l[n].timer == 0 && l[n].gram.queue[0].start == 0 then [l[n].key] else []) + Exceeded(l[n + 1..])
  {
    assert l[n..][1..] == l[n + 1..];
    assert forall e :: e in l[n..][1..] ==> e in l[n..];
  }

  /** A tick leaves every datagram whole, one second older, or takes it off at zero. */
  lemma {:induction false} AgedGet(list: seq<Entry>, key: Key)
    requires forall i, j :: 0 <= i < j < |list| ==> list[i].key != list[j].key
    ensures var was := Get(list, key);
            Get(Aged(list), key) ==
            if was == None || was.value.timer == 0 then None else Some(was.value.(timer := was.value.timer - 1))
    decreases |list|
  {
    if list != [] {
      AgedGet(list[1..], key);
      var head := if list[0].timer > 0 then [list[0].(timer := list[0].timer - 1)] else [];
      GetJoin(head, Aged(list[1..]), key);
      GetNone(list[1..], list[0].key);
      assert head != [] ==> head[1..] == [];
    }
  }

  /** Told of a timeout are the senders of exactly those datagrams that are given up and whose first
      fragment had arrived. */
  lemma {:induction false} ExceededIs(list: seq<Entry>, key: Key)
    requires ListOk(list) && forall e :: e in list ==> e.gram.queue != []
    ensures key in Exceeded(list) <==>
            var e := Get(list, key);
            e.Some? && e.value.gram.queue != [] && e.value.gram.queue[0].start == 0 && Get(Aged(list), key) == None
    decreases |list|
  {
    AgedGet(list, key);
    if list != [] {
      var rest := list[1..];
      ExceededIs(rest, key);
      AgedGet(rest, key);
      GetMember(rest, key);
      GetNone(rest, list[0].key);
      assert list[0] in list;
      if list[0].key == key {
        assert Get(rest, key) == None by {
          forall e | e in rest ensures e.key != key {
            var i :| 0 <= i < |rest| && rest[i] == e;
            assert e == list[i + 1];
          }
        }
      }
    }
  }

  lemma {:induction false} GetMember(list: seq<Entry>, key: Key)
    ensures Get(list, key).Some? ==> Get(list, key).value in list
    decreases |list|
  {
    if list != [] {
      GetMember(list[1..], key);
    }
  }

  lemma {:induction false} AgedOk(list: seq<Entry>)
    requires ListOk(list) && forall e :: e in list ==> e.gram.queue != []
    ensures ListOk(Aged(list)) && (forall e :: e in Aged(list) ==> e.gram.queue != [])
    ensures forall e :: e in Aged(list) ==> exists x :: x in list && x.key == e.key && x.timer == e.timer + 1
    decreases |list|
  {
    if list != [] {
      AgedOk(list[1..]);
    }
  }

  /** No datagram outlives four ticks, whatever became of it. */
  lemma AgeOut(list: seq<Entry>)
    requires ListOk(list)
    ensures Aged(Aged(Aged(Aged(list)))) == []
  {
    AgedBelow(list, MAXAGE);
    AgedBelow(Aged(list), 2);
    AgedBelow(Aged(Aged(list)), 1);
    AgedBelow(Aged(Aged(Aged(list))), 0);
  }

  lemma {:induction false} AgedBelow(list: seq<Entry>, n: nat)
    requires forall e :: e in list ==> e.timer <= n
    ensures n == 0 ==> Aged(list) == []
    ensures forall e :: e in Aged(list) ==> e.timer < n
    decreases |list|
  {
    if list != [] {
      AgedBelow(list[1..], n);
    }
  }

  /** A new datagram goes in front. */
  lemma EnterOk(list: seq<Entry>, key: Key)
    requires ListOk(list) && Get(list, key) == None
    ensures var l := [Entry(key, MAXAGE, EMPTY)] + list;
            ListOk(l) && Count(l) == Count(list)
            && (forall k :: Get(l, k) == if k == key then Some(Entry(key, MAXAGE, EMPTY)) else Get(list, k))
  {
    GetNone(list, key);
    assert ([Entry(key, MAXAGE, EMPTY)] + list)[1..] == list;
  }

  lemma EditAll(list: seq<Entry>, i: nat)
    requires i < |list| && ListOk(list)
    ensures Get(list, list[i].key) == Some(list[i])
    ensures forall e: Entry, k :: e.key == list[i].key ==>
              Get(list[i := e], k) == if k == e.key then Some(e) else Get(list, k)
    ensures forall k :: Get(list[..i] + list[i + 1..], k) == if k == list[i].key then None else Get(list, k)
  {
    hide Get, Count, ListOk;
    Edit(list, i, list[i], list[i].key);
    forall e: Entry, k | e.key == list[i].key
      ensures Get(list[i := e], k) == if k == e.key then Some(e) else Get(list, k) {
      Edit(list, i, e, k);
    }
    forall k ensures Get(list[..i] + list[i + 1..], k) == if k == list[i].key then None else Get(list, k) {
      Edit(list, i, list[i], k);
    }
  }
}
