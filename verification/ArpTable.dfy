/**
 The ARP table of etharp.c on values: what a lookup finds, which entry is recycled, and what becomes
 of queued packets.
 */
module ArpTable {
  import opened Basics

  const TABLE_SIZE: nat := 10
  const MAXAGE: nat := 240
  const MAXPENDING: nat := 2

  /** IP addresses, Ethernet addresses and packets are only compared. */
  type Ip = int
  type Eth = int
  type Packet = int

  datatype State = Empty | Pending | Stable

  datatype Entry = Entry(state: State, ip: Ip, eth: Eth, ctime: u8, q: seq<Packet>)

  /** What became of a queued packet. */
  datatype Fate = Sent(to: Eth) | Freed

  datatype Taken = Taken(ip: Ip, p: Packet)
  datatype Done = Done(ip: Ip, p: Packet, fate: Fate)

  predicate Live(e: Entry) {
    e.state != Empty
  }

  // ----- invariant

  predicate EntryOk(e: Entry) {
    && (e.q != [] ==> e.state == Pending)
    && (e.state == Pending ==> e.ctime < MAXPENDING)
    && (e.state == Stable ==> e.ctime < MAXAGE)
  }

  /** No address is in two live entries; only pending entries hold packets; none is overdue. */
  ghost predicate TableOk(t: seq<Entry>) {
    && |t| == TABLE_SIZE
    && (forall i :: 0 <= i < |t| ==> EntryOk(t[i]))
    && (forall i, j :: 0 <= i < j < |t| && Live(t[i]) && Live(t[j]) ==> t[i].ip != t[j].ip)
  }

  // ----- lookup

  /** The plain scan: the first live entry for an address, the length if there is none. */
  function Match(t: seq<Entry>, ip: Ip): (i: nat)
    ensures i <= |t| && (i < |t| ==> Live(t[i]) && t[i].ip == ip)
    ensures forall j :: 0 <= j < i ==> !(Live(t[j]) && t[j].ip == ip)
  {
    if t == [] || (Live(t[0]) && t[0].ip == ip) then 0 else 1 + Match(t[1..], ip)
  }

  /** Any live entry for the address, such as the one looked up last, is the one a scan finds. */
  lemma MatchUnique(t: seq<Entry>, ip: Ip, i: nat)
    requires TableOk(t) && i < |t| && Live(t[i]) && t[i].ip == ip
    ensures Match(t, ip) == i
  {
    var m := Match(t, ip);
  }

  // ----- recycling

  /** In the order of preference: empty, stable, pending, pending with packets. */
  function Rank(e: Entry): nat {
    match e.state
    case Empty => 0
    case Stable => 1
    case Pending => if e.q == [] then 2 else 3
  }

  /** The oldest of its rank, the last of these on a tie; of the empty entries the first. */
  ghost predicate First(t: seq<Entry>, rank: nat, r: nat) {
    && r < |t| && Rank(t[r]) == rank
    && forall j :: 0 <= j < |t| && Rank(t[j]) == rank ==>
         if rank == 0 then r <= j else t[j].ctime <= t[r].ctime && (r < j ==> t[j].ctime < t[r].ctime)
  }

  /** The entry to recycle. */
  ghost predicate IsVictim(t: seq<Entry>, r: nat) {
    r < |t| && First(t, Rank(t[r]), r) && forall j :: 0 <= j < |t| ==> Rank(t[r]) <= Rank(t[j])
  }

  /** What is recycled: an empty entry if there is one; a stable one only if all are live, and then the
      oldest; a pending one only if none is stable, and one with packets only if all have packets. */
  lemma VictimChoice(t: seq<Entry>, r: nat, j: nat)
    requires IsVictim(t, r) && j < |t|
    ensures !Live(t[j]) ==> !Live(t[r]) && r <= j
    ensures t[j].state == Stable && Live(t[r]) ==> t[r].state == Stable && t[j].ctime <= t[r].ctime
    ensures t[j].state == Pending && t[r].state == Pending && t[j].q == [] ==> t[r].q == [] && t[j].ctime <= t[r].ctime
    ensures t[j].state == Pending && t[r].state == Pending && t[r].q != [] ==> t[j].q != [] && t[j].ctime <= t[r].ctime
  {
    assert Rank(t[r]) <= Rank(t[j]);
  }

  lemma VictimUnique(t: seq<Entry>, r: nat, s: nat)
    requires IsVictim(t, r) && IsVictim(t, s)
    ensures r == s
  {
    assert Rank(t[r]) == Rank(t[s]);
  }

  /** The four candidates of one sweep, on the first `n` entries; `age` goes with the candidate. */
  ghost predicate Candidate(t: seq<Entry>, n: nat, rank: nat, c: nat, age: nat)
    requires n <= |t|
  {
    if c == TABLE_SIZE then (forall j :: 0 <= j < n ==> Rank(t[j]) != rank) && age == 0
    else First(t[..n], rank, c) && (rank == 0 || age == t[c].ctime)
  }

  lemma CandidateStep(t: seq<Entry>, n: nat, rank: nat, c: nat, age: nat)
    requires n < |t| <= TABLE_SIZE && Candidate(t, n, rank, c, age)
    ensures Rank(t[n]) != rank || (rank == 0 && c != TABLE_SIZE) || (rank != 0 && t[n].ctime < age) ==>
              Candidate(t, n + 1, rank, c, age)
    ensures Rank(t[n]) == rank && (if rank == 0 then c == TABLE_SIZE else t[n].ctime >= age) ==>
              Candidate(t, n + 1, rank, n, if rank == 0 then 0 else t[n].ctime)
  {
    assert t[..n + 1] == t[..n] + [t[n]];
  }

  /** The best candidate is the entry to recycle. */
  lemma CandidateBest(t: seq<Entry>, c: seq<nat>, age: seq<nat>, r: nat)
    requires |t| == TABLE_SIZE && |c| == |age| == 4 && r < 4 && c[r] < TABLE_SIZE
    requires forall k: nat :: k < 4 ==> Candidate(t, |t|, k, c[k], age[k])
    requires forall k: nat :: k < r ==> c[k] == TABLE_SIZE
    ensures IsVictim(t, c[r]) && Rank(t[c[r]]) == r
  {
    assert t[..|t|] == t;
    assert Candidate(t, |t|, r, c[r], age[r]);
    forall j | 0 <= j < |t| ensures Rank(t[c[r]]) <= Rank(t[j]) {
      var k := Rank(t[j]);
      assert Candidate(t, |t|, k, c[k], age[k]);
    }
  }

  /** There always is one. */
  lemma CandidateExists(t: seq<Entry>, c: seq<nat>, age: seq<nat>) returns (r: nat)
    requires |t| == TABLE_SIZE && |c| == |age| == 4
    requires forall k: nat :: k < 4 ==> Candidate(t, |t|, k, c[k], age[k])
    ensures r < 4 && c[r] < TABLE_SIZE && forall k: nat :: k < r ==> c[k] == TABLE_SIZE
  {
    assert t[..|t|] == t;
    var k0 := Rank(t[0]);
    assert Candidate(t, |t|, k0, c[k0], age[k0]);
    assert forall k: nat :: k < 4 ==> c[k] == TABLE_SIZE || c[k] < TABLE_SIZE by {
      forall k: nat | k < 4 ensures c[k] == TABLE_SIZE || c[k] < TABLE_SIZE {
        assert Candidate(t, |t|, k, c[k], age[k]);
      }
    }
    r := if c[0] < TABLE_SIZE then 0 else if c[1] < TABLE_SIZE then 1 else if c[2] < TABLE_SIZE then 2 else 3;
  }

  // ----- accounting for packets

  function TakenFor(log: seq<Taken>, ip: Ip): seq<Packet> {
    if log == [] then [] else (if log[0].ip == ip then [log[0].p] else []) + TakenFor(log[1..], ip)
  }

  function DoneFor(log: seq<Done>, ip: Ip): seq<Packet> {
    if log == [] then [] else (if log[0].ip == ip then [log[0].p] else []) + DoneFor(log[1..], ip)
  }

  function Waiting(t: seq<Entry>, ip: Ip): seq<Packet> {
    if t == [] then [] else (if t[0].ip == ip then t[0].q else []) + Waiting(t[1..], ip)
  }

  /** For every address: the packets taken over are those sent or freed, in that order, and then
      those still waiting. */
  ghost predicate Accounts(t: seq<Entry>, taken: seq<Taken>, done: seq<Done>) {
    forall ip :: TakenFor(taken, ip) == DoneFor(done, ip) + Waiting(t, ip)
  }

  /** All packets of a queue meet the same fate. */
  function Fates(ip: Ip, q: seq<Packet>, fate: Fate): seq<Done> {
    if q == [] then [] else [Done(ip, q[0], fate)] + Fates(ip, q[1..], fate)
  }

  lemma {:induction false} TakenJoin(a: seq<Taken>, b: seq<Taken>, ip: Ip)
    ensures TakenFor(a + b, ip) == TakenFor(a, ip) + TakenFor(b, ip)
    decreases |a|
  {
    if a == [] {
      assert a + b == b;
    } else {
      TakenJoin(a[1..], b, ip);
      assert (a + b)[1..] == a[1..] + b;
    }
  }

  lemma {:induction false} DoneJoin(a: seq<Done>, b: seq<Done>, ip: Ip)
    ensures DoneFor(a + b, ip) == DoneFor(a, ip) + DoneFor(b, ip)
    decreases |a|
  {
    if a == [] {
      assert a + b == b;
    } else {
      DoneJoin(a[1..], b, ip);
      assert (a + b)[1..] == a[1..] + b;
    }
  }

  lemma {:induction false} FatesFor(at: Ip, q: seq<Packet>, fate: Fate, ip: Ip)
    ensures DoneFor(Fates(at, q, fate), ip) == if ip == at then q else []
    decreases |q|
  {
    if q != [] {
      FatesFor(at, q[1..], fate, ip);
      assert Fates(at, q, fate)[1..] == Fates(at, q[1..], fate);
    }
  }

  lemma {:induction false} WaitingJoin(a: seq<Entry>, b: seq<Entry>, ip: Ip)
    ensures Waiting(a + b, ip) == Waiting(a, ip) + Waiting(b, ip)
    decreases |a|
  {
    if a == [] {
      assert a + b == b;
    } else {
      WaitingJoin(a[1..], b, ip);
      assert (a + b)[1..] == a[1..] + b;
    }
  }

  lemma WaitingAround(t: seq<Entry>, i: nat, ip: Ip)
    requires i < |t|
    ensures Waiting(t, ip) == Waiting(t[..i], ip) + (if t[i].ip == ip then t[i].q else []) + Waiting(t[i + 1..], ip)
  {
    assert t == t[..i] + t[i..] && t[i..][1..] == t[i + 1..];
    WaitingJoin(t[..i], t[i..], ip);
  }

  lemma {:induction false} WaitingNone(t: seq<Entry>, ip: Ip)
    requires forall e :: e in t && e.ip == ip ==> e.q == []
    ensures Waiting(t, ip) == []
    decreases |t|
  {
    if t != [] {
      assert forall e :: e in t[1..] ==> e in t;
      WaitingNone(t[1..], ip);
    }
  }

  /** The packets waiting for the address of a live entry are those of the entry. */
  lemma WaitingAt(t: seq<Entry>, i: nat)
    requires TableOk(t) && i < |t| && Live(t[i])
    ensures Waiting(t[..i], t[i].ip) == [] && Waiting(t[i + 1..], t[i].ip) == []
    ensures Waiting(t, t[i].ip) == t[i].q
  {
    hide TableOk, Waiting;
    var ip := t[i].ip;
    WaitingAround(t, i, ip);
    OthersIdle(t, i);
    forall e | e in t[..i] && e.ip == ip ensures e.q == [] {
      var j :| 0 <= j < i && t[j] == e;
    }
    forall e | e in t[i + 1..] && e.ip == ip ensures e.q == [] {
      var j :| i < j < |t| && t[j] == e;
    }
    WaitingNone(t[..i], ip);
    WaitingNone(t[i + 1..], ip);
  }

  lemma OthersIdle(t: seq<Entry>, i: nat)
    requires TableOk(t) && i < |t| && Live(t[i])
    ensures forall j :: 0 <= j < |t| && j != i && t[j].ip == t[i].ip ==> t[j].q == []
  {
    forall j | 0 <= j < |t| && j != i && t[j].ip == t[i].ip ensures t[j].q == [] {
      assert !Live(t[j]) && EntryOk(t[j]);
    }
  }

  /** Emptying the queue of an entry, all packets meeting the same fate. */
  lemma AccountsDrain(t: seq<Entry>, i: nat, e: Entry, fate: Fate, taken: seq<Taken>, done: seq<Done>)
    requires TableOk(t) && i < |t| && e.q == [] && Accounts(t, taken, done)
    ensures Accounts(t[i := e], taken, done + Fates(t[i].ip, t[i].q, fate))
  {
    hide TableOk, TakenFor, DoneFor, Waiting, Fates;
    var done' := done + Fates(t[i].ip, t[i].q, fate);
    forall ip ensures TakenFor(taken, ip) == DoneFor(done', ip) + Waiting(t[i := e], ip) {
      DoneJoin(done, Fates(t[i].ip, t[i].q, fate), ip);
      FatesFor(t[i].ip, t[i].q, fate, ip);
      WaitingAround(t, i, ip);
      WaitingAround(t[i := e], i, ip);
      assert t[i := e][..i] == t[..i] && t[i := e][i + 1..] == t[i + 1..];
      if ip == t[i].ip && t[i].q != [] {
        assert Live(t[i]) by { QueueLive(t, i); }
        WaitingAt(t, i);
      }
    }
  }

  lemma QueueLive(t: seq<Entry>, i: nat)
    requires TableOk(t) && i < |t| && t[i].q != []
    ensures Live(t[i])
  {
  }

  /** Appending a packet to the queue of a live entry. */
  lemma AccountsAppend(t: seq<Entry>, i: nat, e: Entry, p: Packet, taken: seq<Taken>, done: seq<Done>)
    requires TableOk(t) && i < |t| && Live(t[i]) && e.ip == t[i].ip && e.q == t[i].q + [p] && Accounts(t, taken, done)
    ensures Accounts(t[i := e], taken + [Taken(e.ip, p)], done)
  {
    hide TableOk, TakenFor, DoneFor, Waiting;
    var taken' := taken + [Taken(e.ip, p)];
    forall ip ensures TakenFor(taken', ip) == DoneFor(done, ip) + Waiting(t[i := e], ip) {
      TakenJoin(taken, [Taken(e.ip, p)], ip);
      TakenOne(e.ip, p, ip);
      WaitingAround(t, i, ip);
      WaitingAround(t[i := e], i, ip);
      assert t[i := e][..i] == t[..i] && t[i := e][i + 1..] == t[i + 1..];
      if ip == e.ip {
        WaitingAt(t, i);
      }
    }
  }

  lemma TakenOne(at: Ip, p: Packet, ip: Ip)
    ensures TakenFor([Taken(at, p)], ip) == if at == ip then [p] else []
  {
    assert [Taken(at, p)][1..] == [];
  }

  // ----- what is sent where

  /** What happened, in order: an Ethernet address was learned, a queued packet was done with, a packet
      was sent without queueing. */
  datatype Deed = Learn(ip: Ip, eth: Eth) | Dequeue(d: Done) | Direct(ip: Ip, p: Packet, to: Eth)

  function Dequeues(ds: seq<Done>): seq<Deed> {
    if ds == [] then [] else [Dequeue(ds[0])] + Dequeues(ds[1..])
  }

  function DoneOf(trail: seq<Deed>): seq<Done> {
    if trail == [] then [] else (if trail[0].Dequeue? then [trail[0].d] else []) + DoneOf(trail[1..])
  }

  /** The address last learned for `ip`. */
  function LastLearned(trail: seq<Deed>, ip: Ip): Option<Eth> {
    if trail == [] then None
    else
      var d := trail[|trail| - 1];
      if d.Learn? && d.ip == ip then Some(d.eth) else LastLearned(trail[..|trail| - 1], ip)
  }

  /** If the deed sends a packet, it sends it to the address last learned for its destination. */
  predicate Rightly(before: seq<Deed>, d: Deed) {
    match d
    case Learn(_, _) => true
    case Direct(ip, _, to) => LastLearned(before, ip) == Some(to)
    case Dequeue(x) => x.fate.Sent? ==> LastLearned(before, x.ip) == Some(x.fate.to)
  }

  predicate Honest(trail: seq<Deed>) {
    forall i :: 0 <= i < |trail| ==> Rightly(trail[..i], trail[i])
  }

  /** Stable entries hold what was last learned, packets went where they should, and the log of queued
      packets is part of the trail. */
  predicate Told(t: seq<Entry>, trail: seq<Deed>, done: seq<Done>) {
    && Honest(trail) && done == DoneOf(trail)
    && forall i :: 0 <= i < |t| && t[i].state == Stable ==> LastLearned(trail, t[i].ip) == Some(t[i].eth)
  }

  /** What an honest trail means: a packet sent for `ip` went to an address that had been learned for it,
      and no other had been learned for it since. */
  lemma SentWhereLearned(trail: seq<Deed>, i: nat, ip: Ip, to: Eth) returns (j: nat)
    requires Honest(trail) && i < |trail|
    requires var d := trail[i];
             (d.Direct? && d.ip == ip && d.to == to) || (d.Dequeue? && d.d.ip == ip && d.d.fate == Sent(to))
    ensures j < i && trail[j] == Learn(ip, to)
    ensures forall k :: j < k < i ==> !(trail[k].Learn? && trail[k].ip == ip)
  {
    assert Rightly(trail[..i], trail[i]);
    j := LearnedAt(trail[..i], ip);
  }

  lemma {:induction false} LearnedAt(trail: seq<Deed>, ip: Ip) returns (j: nat)
    requires LastLearned(trail, ip) != None
    ensures j < |trail| && trail[j] == Learn(ip, LastLearned(trail, ip).value)
    ensures forall k :: j < k < |trail| ==> !(trail[k].Learn? && trail[k].ip == ip)
    decreases |trail|
  {
    var d := trail[|trail| - 1];
    if d.Learn? && d.ip == ip {
      j := |trail| - 1;
    } else {
      j := LearnedAt(trail[..|trail| - 1], ip);
    }
  }

  lemma {:induction false} DoneOfJoin(a: seq<Deed>, b: seq<Deed>)
    ensures DoneOf(a + b) == DoneOf(a) + DoneOf(b)
    decreases |a|
  {
    if a == [] {
      assert a + b == b;
    } else {
      DoneOfJoin(a[1..], b);
      assert (a + b)[1..] == a[1..] + b;
    }
  }

  lemma {:induction false} DoneOfDequeues(ds: seq<Done>)
    ensures DoneOf(Dequeues(ds)) == ds
    decreases |ds|
  {
    if ds != [] {
      DoneOfDequeues(ds[1..]);
      assert Dequeues(ds)[1..] == Dequeues(ds[1..]);
    }
  }

  lemma {:induction false} DequeuesJoin(a: seq<Done>, b: seq<Done>)
    ensures Dequeues(a + b) == Dequeues(a) + Dequeues(b)
    decreases |a|
  {
    if a == [] {
      assert a + b == b;
    } else {
      DequeuesJoin(a[1..], b);
      assert (a + b)[1..] == a[1..] + b;
    }
  }

  /** One more deed. */
  lemma Extend(trail: seq<Deed>, d: Deed)
    requires Honest(trail) && Rightly(trail, d)
    ensures Honest(trail + [d])
    ensures forall ip :: LastLearned(trail + [d], ip) ==
              if d.Learn? && d.ip == ip then Some(d.eth) else LastLearned(trail, ip)
  {
    hide LastLearned, Rightly;
    var more := trail + [d];
    forall i | 0 <= i < |more| ensures Rightly(more[..i], more[i]) {
      assert more[..i] == trail[..i];
      assert i == |trail| ==> trail[..i] == trail;
    }
    forall ip ensures LastLearned(more, ip) == if d.Learn? && d.ip == ip then Some(d.eth) else LastLearned(trail, ip) {
      LastStep(trail, d, ip);
    }
  }

  lemma LastStep(trail: seq<Deed>, d: Deed, ip: Ip)
    ensures LastLearned(trail + [d], ip) == if d.Learn? && d.ip == ip then Some(d.eth) else LastLearned(trail, ip)
  {
    assert (trail + [d])[..|trail|] == trail;
  }

  /** A whole queue sent to the address last learned, or freed. */
  lemma {:induction false} ExtendFates(trail: seq<Deed>, ip: Ip, q: seq<Packet>, fate: Fate)
    requires Honest(trail) && (fate.Sent? ==> LastLearned(trail, ip) == Some(fate.to))
    ensures var more := trail + Dequeues(Fates(ip, q, fate));
            Honest(more) && forall x :: LastLearned(more, x) == LastLearned(trail, x)
    decreases |q|
  {
    hide LastLearned;
    if q == [] {
      assert trail + Dequeues(Fates(ip, q, fate)) == trail;
    } else {
      var d := Dequeue(Done(ip, q[0], fate));
      Extend(trail, d);
      ExtendFates(trail + [d], ip, q[1..], fate);
      assert Fates(ip, q, fate)[1..] == Fates(ip, q[1..], fate);
      assert trail + Dequeues(Fates(ip, q, fate)) == (trail + [d]) + Dequeues(Fates(ip, q[1..], fate));
    }
  }

  /** An entry is replaced by one that claims no more, its packets being freed. */
  lemma ToldDrop(t: seq<Entry>, i: nat, e: Entry, ip: Ip, q: seq<Packet>, trail: seq<Deed>, done: seq<Done>)
    requires Told(t, trail, done) && i < |t|
    requires e.state == Stable ==> t[i].state == Stable && e.ip == t[i].ip && e.eth == t[i].eth
    ensures Told(t[i := e], trail + Dequeues(Fates(ip, q, Freed)), done + Fates(ip, q, Freed))
  {
    hide LastLearned, Honest, Fates, Dequeues;
    ExtendFates(trail, ip, q, Freed);
    DoneOfJoin(trail, Dequeues(Fates(ip, q, Freed)));
    DoneOfDequeues(Fates(ip, q, Freed));
  }

  lemma ToldEdit(t: seq<Entry>, i: nat, e: Entry, trail: seq<Deed>, done: seq<Done>)
    requires Told(t, trail, done) && i < |t|
    requires e.state == Stable ==> t[i].state == Stable && e.ip == t[i].ip && e.eth == t[i].eth
    ensures Told(t[i := e], trail, done)
  {
  }

  /** An address is learned, and what waited for it is sent there. */
  lemma ToldResolve(t: seq<Entry>, i: nat, e: Entry, q: seq<Packet>, trail: seq<Deed>, done: seq<Done>)
    requires Told(t, trail, done) && i < |t| && e.state == Stable
    requires forall j :: 0 <= j < |t| && j != i && t[j].state == Stable ==> t[j].ip != e.ip
    ensures var sent := Fates(e.ip, q, Sent(e.eth));
            Told(t[i := e], trail + [Learn(e.ip, e.eth)] + Dequeues(sent), done + sent)
  {
    hide LastLearned, Honest, Fates, Dequeues, DoneOf;
    var l, sent := Learn(e.ip, e.eth), Fates(e.ip, q, Sent(e.eth));
    Extend(trail, l);
    ExtendFates(trail + [l], e.ip, q, Sent(e.eth));
    DoneOfJoin(trail, [l]);
    NoDone(l);
    DoneOfJoin(trail + [l], Dequeues(sent));
    DoneOfDequeues(sent);
  }

  lemma NoDone(d: Deed)
    requires !d.Dequeue?
    ensures DoneOf([d]) == []
  {
    assert [d][1..] == [];
  }

  /** A packet goes straight to the address of a stable entry. */
  lemma ToldDirect(t: seq<Entry>, i: nat, p: Packet, trail: seq<Deed>, done: seq<Done>)
    requires Told(t, trail, done) && i < |t| && t[i].state == Stable
    ensures Told(t, trail + [Direct(t[i].ip, p, t[i].eth)], done)
  {
    hide LastLearned, Honest, DoneOf;
    var d := Direct(t[i].ip, p, t[i].eth);
    Extend(trail, d);
    DoneOfJoin(trail, [d]);
    NoDone(d);
  }

  // ----- the timer

  predicate Overdue(e: Entry) {
    (e.state == Stable && e.ctime >= MAXAGE) || (e.state == Pending && e.ctime >= MAXPENDING)
  }

  function Older(e: Entry): Entry {
    e.(ctime := (e.ctime + 1) % 0x100)
  }

  function Ticked(e: Entry): Entry {
    if Overdue(Older(e)) then Older(e).(state := Empty, q := []) else Older(e)
  }

  function TickAll(t: seq<Entry>): (r: seq<Entry>)
    ensures |r| == |t| && forall i :: 0 <= i < |t| ==> r[i] == Ticked(t[i])
  {
    if t == [] then [] else [Ticked(t[0])] + TickAll(t[1..])
  }

  /** The packets freed by a tick, entry after entry. */
  function TickFates(t: seq<Entry>): seq<Done> {
    if t == [] then []
    else
      var last := t[|t| - 1];
      TickFates(t[..|t| - 1]) + if Overdue(Older(last)) then Fates(last.ip, last.q, Freed) else []
  }

  /** Replacing an entry by one that is no more of a claim on its address keeps the table in order. */
  lemma EditOk(t: seq<Entry>, i: nat, e: Entry)
    requires TableOk(t) && i < |t| && EntryOk(e) && (Live(e) ==> Live(t[i]) && e.ip == t[i].ip)
    ensures TableOk(t[i := e])
  {
  }

  /** An entry may be given to an address no live entry has. */
  lemma ClaimOk(t: seq<Entry>, i: nat, e: Entry)
    requires TableOk(t) && i < |t| && EntryOk(e)
    requires forall j :: 0 <= j < |t| && j != i && Live(t[j]) ==> t[j].ip != e.ip
    ensures TableOk(t[i := e])
  {
  }

  lemma TwoTicks(e: Entry)
    requires EntryOk(e)
    ensures Ticked(Ticked(e)).q == []
  {
  }

  /** No packet waits for longer than two ticks. */
  lemma WaitBounded(t: seq<Entry>, ip: Ip)
    requires TableOk(t)
    ensures Waiting(TickAll(TickAll(t)), ip) == []
  {
    hide Ticked, Waiting, TickAll;
    var t2 := TickAll(TickAll(t));
    forall i | 0 <= i < |t2| ensures t2[i].q == [] {
      TwoTicks(t[i]);
    }
    WaitingNone(t2, ip);
  }

  // ----- lifetimes

  /** `n` ticks. */
  function Ticks(e: Entry, n: nat): Entry {
    if n == 0 then e else Ticked(Ticks(e, n - 1))
  }

  /** A stable entry is kept, unchanged but for its age, for 239 ticks after it was learned, and is gone
      with the next. */
  lemma {:induction false} StableLives(e: Entry, n: nat)
    requires e.state == Stable && e.ctime == 0 && n <= 240
    ensures if n < 240 then Ticks(e, n) == e.(ctime := n) else Ticks(e, n).state == Empty && Ticks(e, n).q == []
  {
    if n > 0 {
      StableLives(e, n - 1);
    }
  }

  /** A pending entry is kept with its packets for one tick, and is gone with the next. */
  lemma PendingLives(e: Entry)
    requires e.state == Pending && e.ctime == 0
    ensures Ticks(e, 1) == e.(ctime := 1) && Ticks(e, 2).state == Empty && Ticks(e, 2).q == []
  {
    assert Ticks(e, 1) == Ticked(Ticks(e, 0));
  }

  /** An empty entry stays so. */
  lemma {:induction false} EmptyStays(e: Entry, n: nat)
    requires e.state == Empty
    ensures Ticks(e, n).state == Empty && Ticks(e, n).q == e.q
  {
    if n > 0 {
      EmptyStays(e, n - 1);
    }
  }

  /** The packets of the entries that were live in `t` and are empty in `t'`, in the order of the table. */
  function Dropped(t: seq<Entry>, t': seq<Entry>): seq<Packet>
    requires |t| == |t'|
  {
    if t == [] then []
    else
      var n := |t| - 1;
      Dropped(t[..n], t'[..n]) + if Live(t[n]) && !Live(t'[n]) then t[n].q else []
  }
}
