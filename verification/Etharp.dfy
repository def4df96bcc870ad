/**
 etharp.c: the ARP table and its one-slot lookup cache, updated in place.
 */
module Etharp {
  import opened Basics
  import opened ArpTable

  /** err_t: ERR_OK, ERR_MEM, ERR_ARG, or what a lower layer returned. */
  datatype Err = Ok | Mem | Arg | Other(code: int)

  class ArpCache {
    const table: array<Entry>
    var cached: nat  // etharp_cached_entry
    ghost var taken: seq<Taken>
    ghost var done: seq<Done>
    ghost var trail: seq<Deed>  // everything learned and sent

    ghost predicate Valid()
      reads this, table
    {
      && table.Length == TABLE_SIZE && cached < TABLE_SIZE
      && TableOk(table[..]) && Accounts(table[..], taken, done) && Told(table[..], trail, done)
    }

    constructor ()
      ensures Valid() && fresh(table) && taken == [] && done == [] && trail == []
    {
      table := new Entry[TABLE_SIZE](_ => Entry(Empty, 0, 0, 0, []));
      cached, taken, done, trail := 0, [], [], [];
      new;
      forall ip ensures TakenFor([], ip) == DoneFor([], ip) + Waiting(table[..], ip) {
        WaitingNone(table[..], ip);
      }
    }

    /** The search sweep of find_entry: a live entry for the address, or else the candidates for
        recycling of each rank. */
    method Sweep(ip: Ip) returns (found: nat, empty: nat, oldStable: nat, oldPending: nat, oldQueue: nat, ghost age: seq<nat>)
      requires Valid()
      ensures found == Match(table[..], ip) && |age| == 4
      ensures found == TABLE_SIZE ==> forall k: nat :: k < 4 ==>
                Candidate(table[..], TABLE_SIZE, k, [empty, oldStable, oldPending, oldQueue][k], age[k])
    {
      hide Candidate, TableOk, Match, Accounts;
      empty, oldStable, oldPending, oldQueue := TABLE_SIZE, TABLE_SIZE, TABLE_SIZE, TABLE_SIZE;
      var agePending: u8, ageStable: u8, ageQueue: u8 := 0, 0, 0;
      found := 0;
      ghost var t := table[..];
      CandidatesNone(t);
      age := [0, 0, 0, 0];
      while found < TABLE_SIZE
        invariant found <= TABLE_SIZE && t == table[..]
        invariant forall j :: 0 <= j < found ==> !(Live(t[j]) && t[j].ip == ip)
        invariant Candidate(t, found, 0, empty, 0) && Candidate(t, found, 1, oldStable, ageStable)
        invariant Candidate(t, found, 2, oldPending, agePending) && Candidate(t, found, 3, oldQueue, ageQueue)
      {
        var e := table[found];
        assert e == t[found];
        CandidateStep(t, found, 0, empty, 0);
        CandidateStep(t, found, 1, oldStable, ageStable);
        CandidateStep(t, found, 2, oldPending, agePending);
        CandidateStep(t, found, 3, oldQueue, ageQueue);
        if empty == TABLE_SIZE && e.state == Empty {
          empty := found;
        } else if e.state == Pending {
          if e.ip == ip {
            MatchIs(t, ip, found);
            return;
          } else if e.q != [] {
            if e.ctime >= ageQueue {
              oldQueue, ageQueue := found, e.ctime;
            }
          } else if e.ctime >= agePending {
            oldPending, agePending := found, e.ctime;
          }
        } else if e.state == Stable {
          if e.ip == ip {
            MatchIs(t, ip, found);
            return;
          } else if e.ctime >= ageStable {
            oldStable, ageStable := found, e.ctime;
          }
        }
        found := found + 1;
      }
      MatchIs(t, ip, found);
      age := [0, ageStable, agePending, ageQueue];
    }

    /** find_entry for a given address. Without a match an entry is recycled: an empty one always, a
        live one only when trying hard, none when only looking; -1 is ERR_MEM. The entry is handed
        out empty, and the packets of the one recycled are freed. */
    method FindEntry(ip: Ip, tryHard: bool, findOnly: bool) returns (i: int, freed: seq<Packet>)
      requires Valid()
      modifies this, table
      ensures Valid() && taken == old(taken) && (i >= 0 ==> i == cached)
      ensures -1 <= i < TABLE_SIZE
      ensures i < 0 <==> Match(old(table[..]), ip) == TABLE_SIZE
                         && (findOnly || (!tryHard && forall e :: e in old(table[..]) ==> Live(e)))
      ensures Found(old(table[..]), ip, tryHard, findOnly, i, table[..], freed)
      ensures done == old(done) + if i < 0 then [] else Fates(old(table[..])[i].ip, freed, Freed)
      ensures trail == old(trail) + if i < 0 then [] else Dequeues(Fates(old(table[..])[i].ip, freed, Freed))
    {
      hide TableOk, Candidate, IsVictim, Waiting, Fates, Match, Accounts, Told, Dequeues;
      ghost var t := table[..];
      freed := [];
      if table[cached].state == Stable && table[cached].ip == ip {
        MatchUnique(t, ip, cached);
        NoFates(t[cached].ip);
        return cached, [];
      }
      var found, empty, oldStable, oldPending, oldQueue;
      ghost var age;
      found, empty, oldStable, oldPending, oldQueue, age := Sweep(ip);
      if found < TABLE_SIZE {
        cached := found;
        NoFates(t[found].ip);
        return found, [];
      }
      ghost var c := [empty, oldStable, oldPending, oldQueue];
      EmptyIs(t, c[0], age[0]);
      if (empty == TABLE_SIZE && !tryHard) || findOnly {
        return -1, [];
      }
      ghost var r := CandidateExists(t, c, age);
      CandidateBest(t, c, age, r);
      if empty < TABLE_SIZE {
        i := empty;
      } else if oldStable < TABLE_SIZE {
        i := oldStable;
      } else if oldPending < TABLE_SIZE {
        i := oldPending;
      } else {
        i := oldQueue;
        freed := table[i].q;
      }
      assert c[0] == empty && c[1] == oldStable && c[2] == oldPending && c[3] == oldQueue && i == c[r];
      VictimQueue(t, i, freed);
      Recycle(i, ip);
    }

    /** Take entry `i` over for another address. */
    method Recycle(i: nat, ip: Ip)
      requires Valid() && i < TABLE_SIZE && Match(table[..], ip) == TABLE_SIZE
      modifies this, table
      ensures Valid() && taken == old(taken) && cached == i
      ensures table[..] == old(table[..])[i := Entry(Empty, ip, old(table[i]).eth, 0, [])]
      ensures done == old(done) + Fates(old(table[i]).ip, old(table[i]).q, Freed)
      ensures trail == old(trail) + Dequeues(Fates(old(table[i]).ip, old(table[i]).q, Freed))
    {
      hide TableOk, Waiting, Fates, Match, Accounts, Told, Dequeues;
      ghost var t, e := table[..], Entry(Empty, ip, table[i].eth, 0, []);
      EditOk(t, i, e);
      AccountsDrain(t, i, e, Freed, taken, done);
      ToldDrop(t, i, e, t[i].ip, t[i].q, trail, done);
      done := done + Fates(t[i].ip, t[i].q, Freed);
      trail := trail + Dequeues(Fates(t[i].ip, t[i].q, Freed));
      table[i] := table[i].(state := Empty, q := [], ip := ip, ctime := 0);
      cached := i;
      assert table[..] == t[i := e];
    }

    /** etharp_find_addr: the entry of a resolved address. */
    method FindAddr(ip: Ip) returns (i: int)
      requires Valid()
      modifies this, table
      ensures Valid() && table[..] == old(table[..]) && taken == old(taken) && done == old(done) && trail == old(trail)
      ensures var m := Match(table[..], ip);
              i == if m < TABLE_SIZE && table[..][m].state == Stable then m else -1
    {
      hide TableOk, Waiting, Fates, Accounts, IsVictim;
      var freed;
      i, freed := FindEntry(ip, false, true);
      NoFates(if i < 0 then 0 else table[i].ip);
      if i < 0 || table[i].state != Stable {
        i := -1;
      }
    }

    /** update_arp_entry: `sent` are the queued packets sent to the address just learned, in order,
        `freed` those of an entry recycled for it, at index `at`. */
    method UpdateArpEntry(ip: Ip, eth: Eth, unicast: bool, tryHard: bool)
      returns (result: Err, sent: seq<Packet>, freed: seq<Packet>, at: int, ghost mid: seq<Entry>)
      requires Valid()
      modifies this, table
      ensures Valid() && taken == old(taken)
      ensures !unicast ==> result == Arg
      ensures unicast ==> result == if at < 0 then Mem else Ok
      ensures unicast ==> (result == Ok <==> Match(old(table[..]), ip) < TABLE_SIZE || tryHard
                                             || exists e :: e in old(table[..]) && !Live(e))
      ensures unicast ==> at < TABLE_SIZE == |mid| && Found(old(table[..]), ip, tryHard, false, at, mid, freed)
      ensures unicast ==> sent == (if at < 0 then [] else mid[at].q)
      ensures unicast ==> table[..] == (if at < 0 then mid else mid[at := Entry(Stable, ip, eth, 0, [])])
      ensures result == Ok ==> at >= 0
      ensures result != Ok ==> table[..] == old(table[..]) && sent == [] && freed == [] && done == old(done) && trail == old(trail)
      ensures result == Ok ==>
                done == old(done) + Fates(old(table[..])[at].ip, freed, Freed) + Fates(ip, sent, Sent(eth))
      ensures result == Ok ==>
                trail == old(trail) + Dequeues(Fates(old(table[..])[at].ip, freed, Freed)) + [Learn(ip, eth)]
                         + Dequeues(Fates(ip, sent, Sent(eth)))
    {
      hide TableOk, Waiting, Fates, Accounts, IsVictim, Told, Dequeues;
      sent, freed, at, mid := [], [], -1, [];
      if !unicast {
        return Arg, [], [], -1, [];
      }
      ghost var t := table[..];
      at, freed := FindEntry(ip, tryHard, false);
      mid := table[..];
      assert Found(t, ip, tryHard, false, at, mid, freed);
      if at < 0 {
        NoFates(ip);
        return Mem, [], freed, at, mid;
      }
      FoundClaim(t, ip, tryHard, at, mid, freed);
      sent := Resolve(at, ip, eth);
      result := Ok;
    }

    /** Mark entry `i` stable and send what waited on it. */
    method Resolve(i: nat, ip: Ip, eth: Eth) returns (sent: seq<Packet>)
      requires Valid() && i < TABLE_SIZE && table[i].ip == ip
      requires forall j :: 0 <= j < TABLE_SIZE && j != i && Live(table[j]) ==> table[j].ip != ip
      modifies this, table
      ensures Valid() && taken == old(taken) && cached == old(cached)
      ensures sent == old(table[i]).q && done == old(done) + Fates(ip, sent, Sent(eth))
      ensures trail == old(trail) + [Learn(ip, eth)] + Dequeues(Fates(ip, sent, Sent(eth)))
      ensures table[..] == old(table[..])[i := Entry(Stable, ip, eth, 0, [])]
    {
      hide TableOk, Waiting, Fates, Accounts, Told, Dequeues;
      ghost var before := table[..];
      ToldResolve(before, i, Entry(Stable, ip, eth, 0, []), before[i].q, trail, done);
      ClaimOk(before, i, Entry(Stable, ip, eth, 0, []));
      AccountsDrain(before, i, Entry(Stable, ip, eth, 0, []), Sent(eth), taken, done);
      done := done + Fates(ip, before[i].q, Sent(eth));
      trail := trail + [Learn(ip, eth)] + Dequeues(Fates(ip, before[i].q, Sent(eth)));
      table[i] := table[i].(state := Stable, eth := eth, ctime := 0);
      sent := SendQueue(i);
      assert table[..] == before[i := Entry(Stable, ip, eth, 0, [])];
    }

    /** Send the packets of an entry, first to last. */
    method SendQueue(i: nat) returns (sent: seq<Packet>)
      requires i < table.Length
      modifies table
      ensures sent == old(table[i]).q && table[..] == old(table[..])[i := old(table[i]).(q := [])]
    {
      sent := [];
      ghost var t := table[..];
      while table[i].q != []
        invariant sent + table[i].q == t[i].q && table[..] == t[i := t[i].(q := table[i].q)]
        decreases |table[i].q|
      {
        var p := table[i].q[0];
        table[i] := table[i].(q := table[i].q[1..]);
        sent := sent + [p];
      }
    }

    /** etharp_query, the packet being optional. `canCopy` and `canQueue` say whether memory was
        found for a copy and a queue entry; `request` and `link` are what sending the ARP request
        and the packet return. Shown are whether a request went out and whether the packet did. */
    method Query(ip: Ip, unicast: bool, p: Option<Packet>, canCopy: bool, canQueue: bool, request: Err, link: Err)
      returns (result: Err, asked: bool, direct: bool, freed: seq<Packet>, at: int)
      requires Valid()
      modifies this, table
      ensures Valid()
      ensures !unicast ==> result == Arg && !asked && !direct
      ensures !unicast ==> table[..] == old(table[..]) && taken == old(taken) && done == old(done) && trail == old(trail)
      ensures unicast ==> 0 <= at < TABLE_SIZE
      ensures unicast ==>
                var t, m := old(table[..]), Match(old(table[..]), ip);
                var resolved := m < TABLE_SIZE && t[m].state == Stable;
                var queued := p.Some? && !resolved && canCopy && canQueue;
                && asked == (!resolved || p.None?) && direct == (resolved && p.Some?)
                && result == (if direct then link else if queued then Ok else request)
                && taken == old(taken) + (if queued then [Taken(ip, p.value)] else [])
                && (if m < TABLE_SIZE then
                      && at == m && freed == []
                      && table[..] == t[m := if queued then t[m].(q := t[m].q + [p.value]) else t[m]]
                    else
                      && IsVictim(t, at) && freed == t[at].q
                      && table[..] == t[at := Entry(Pending, ip, t[at].eth, 0, if queued then [p.value] else [])])
      ensures unicast ==> done == old(done) + Fates(old(table[..])[at].ip, freed, Freed)
      ensures unicast ==>
                trail == old(trail) + Dequeues(Fates(old(table[..])[at].ip, freed, Freed))
                         + if direct then [Direct(ip, p.value, old(table[..])[at].eth)] else []
    {
      hide TableOk, Waiting, Fates, Accounts, IsVictim, Told, Dequeues;
      result, asked, direct, freed, at := Mem, false, false, [], 0;
      if !unicast {
        return Arg, false, false, [], 0;
      }
      ghost var t := table[..];
      at, freed := FindEntry(ip, true, false);
      ghost var mid := table[..];
      FoundClaim(t, ip, true, at, mid, freed);
      if table[at].state == Empty {
        MarkPending(at);
      }
      if table[at].state == Pending || p.None? {
        asked := true;
        result := request;
      }
      assert table[..] == t[at := table[at]];
      if p.Some? {
        if table[at].state == Stable {
          direct := true;
          result := link;
          ToldDirect(table[..], at, p.value, trail, done);
          trail := trail + [Direct(ip, p.value, table[at].eth)];
        } else if table[at].state == Pending {
          if canCopy && canQueue {
            assert [] + [p.value] == [p.value];
            Append(at, p.value);
            result := Ok;
          }
        }
      }
    }

    /** Mark a freshly recycled entry. */
    method MarkPending(i: nat)
      requires Valid() && i < TABLE_SIZE && table[i].state == Empty && table[i].q == [] && table[i].ctime == 0
      requires forall j :: 0 <= j < TABLE_SIZE && j != i && Live(table[j]) ==> table[j].ip != table[i].ip
      modifies table
      ensures Valid() && table[..] == old(table[..])[i := old(table[i]).(state := Pending)]
    {
      hide TableOk, Waiting, Fates, Accounts, Told;
      ghost var t, e := table[..], table[i].(state := Pending);
      ToldEdit(t, i, e, trail, done);
      ClaimOk(t, i, e);
      AccountsDrain(t, i, e, Freed, taken, done);
      NoFates(t[i].ip);
      table[i] := table[i].(state := Pending);
      assert table[..] == t[i := e] && done + [] == done;
    }

    /** Put a packet at the end of the queue of a pending entry. */
    method Append(i: nat, p: Packet)
      requires Valid() && i < TABLE_SIZE && table[i].state == Pending
      modifies table, this`taken
      ensures Valid() && taken == old(taken) + [Taken(table[i].ip, p)]
      ensures table[..] == old(table[..])[i := old(table[i]).(q := old(table[i]).q + [p])]
    {
      hide TableOk, Waiting, Fates, Accounts, Told;
      ghost var t, e := table[..], table[i].(q := table[i].q + [p]);
      ToldEdit(t, i, e, trail, done);
      AppendOk(t, i, p);
      AccountsAppend(t, i, e, p, taken, done);
      taken := taken + [Taken(table[i].ip, p)];
      table[i] := table[i].(q := table[i].q + [p]);
      assert table[..] == t[i := e];
    }

    /** etharp_tmr */
    method Tick() returns (freed: seq<Packet>)
      requires Valid()
      modifies this, table
      ensures Valid() && taken == old(taken) && table[..] == TickAll(old(table[..]))
      ensures done == old(done) + TickFates(old(table[..])) && trail == old(trail) + Dequeues(TickFates(old(table[..])))
      ensures freed == Dropped(old(table[..]), table[..])
      ensures forall i :: 0 <= i < TABLE_SIZE ==> table[i] == Ticks(old(table[..])[i], 1)
    {
      hide TableOk, Waiting, Fates, Accounts, TickAll, TickFates, Ticked, Told, Dequeues, Dropped, Ticks, Live, Overdue;
      freed := [];
      ghost var t := table[..];
      var i := 0;
      TickNext(t, 0);
      TickStart(t, table[..]);
      while i < TABLE_SIZE
        invariant 0 <= i <= TABLE_SIZE && Valid() && taken == old(taken) && |t| == TABLE_SIZE
        invariant forall j :: 0 <= j < TABLE_SIZE ==> table[j] == if j < i then Ticked(t[j]) else t[j]
        invariant done == old(done) + TickFates(t[..i]) && trail == old(trail) + Dequeues(TickFates(t[..i]))
        invariant freed == Dropped(t[..i], table[..i])
      {
        TickNext(t, i);
        DequeuesJoin(TickFates(t[..i]), if Overdue(Older(t[i])) then Fates(t[i].ip, t[i].q, Freed) else []);
        ghost var was := table[..i];
        var gone := TickOne(i);
        assert table[..i] == was;
        DroppedNext(t, table[..], i);
        freed := freed + gone;
        i := i + 1;
      }
      assert t[..i] == t && table[..] == TickAll(t) && table[..i] == table[..];
      TickedOnce(t);
    }

    method TickOne(i: nat) returns (freed: seq<Packet>)
      requires Valid() && i < TABLE_SIZE
      modifies this`done, this`trail, table
      ensures Valid() && table[..] == old(table[..])[i := Ticked(old(table[i]))]
      ensures var e := old(table[i]);
              && freed == (if Live(e) && !Live(Ticked(e)) then e.q else [])
              && done == old(done) + (if Overdue(Older(e)) then Fates(e.ip, e.q, Freed) else [])
              && trail == old(trail) + Dequeues(if Overdue(Older(e)) then Fates(e.ip, e.q, Freed) else [])
    {
      hide TableOk, Waiting, Fates, Accounts, Told;
      freed := [];
      ghost var t, e := table[..], Ticked(table[i]);
      TickedOk(t, i);
      table[i] := table[i].(ctime := (table[i].ctime + 1) % 0x100);
      if (table[i].state == Stable && table[i].ctime >= MAXAGE) || (table[i].state == Pending && table[i].ctime >= MAXPENDING) {
        AccountsDrain(t, i, e, Freed, taken, done);
        ToldDrop(t, i, e, t[i].ip, t[i].q, trail, done);
        done := done + Fates(t[i].ip, t[i].q, Freed);
        trail := trail + Dequeues(Fates(t[i].ip, t[i].q, Freed));
        freed := table[i].q;
        table[i] := table[i].(q := []);
        table[i] := table[i].(state := Empty);
      } else {
        AccountsSame(t, i, e, taken, done);
        ToldEdit(t, i, e, trail, done);
      }
      assert table[..] == t[i := e];
    }
  }

  /** What find_entry may return, and the table behind it. */
  ghost predicate Found(t: seq<Entry>, ip: Ip, tryHard: bool, findOnly: bool, i: int, t': seq<Entry>, freed: seq<Packet>) {
    var m := Match(t, ip);
    if m < |t| then i == m && t' == t && freed == []
    else if findOnly || (!tryHard && forall e :: e in t ==> Live(e)) then i == -1 && t' == t && freed == []
    else
      && 0 <= i < |t| && IsVictim(t, i) && freed == t[i].q
      && t' == t[i := Entry(Empty, ip, t[i].eth, 0, [])]
  }

  /** The entry found is free for the address, or has it already. */
  lemma FoundClaim(t: seq<Entry>, ip: Ip, tryHard: bool, i: int, t': seq<Entry>, freed: seq<Packet>)
    requires TableOk(t) && TableOk(t') && Found(t, ip, tryHard, false, i, t', freed)
    ensures tryHard ==> i >= 0
    ensures i >= 0 ==> i < TABLE_SIZE && t'[i].ip == ip && (t'[i].state == Empty ==> t'[i].q == [] && t'[i].ctime == 0)
    ensures i >= 0 ==> forall j :: 0 <= j < TABLE_SIZE && j != i && Live(t'[j]) ==> t'[j].ip != ip
  {
    hide IsVictim;
  }

  lemma NoFates(ip: Ip)
    ensures Fates(ip, [], Freed) == [] && Dequeues([]) == []
  {
  }

  lemma EmptyIs(t: seq<Entry>, c: nat, age: nat)
    requires |t| == TABLE_SIZE && Candidate(t, |t|, 0, c, age)
    ensures c == TABLE_SIZE <==> forall e :: e in t ==> Live(e)
  {
    assert t[..|t|] == t;
    if c == TABLE_SIZE {
      forall e | e in t ensures Live(e) {
        var j: nat :| j < |t| && t[j] == e;
        assert Rank(t[j]) != 0;
      }
    } else {
      assert t[c] in t;
    }
  }

  /** Only a pending entry with packets has any to free. */
  lemma VictimQueue(t: seq<Entry>, i: nat, freed: seq<Packet>)
    requires TableOk(t) && i < |t| && freed == (if Rank(t[i]) == 3 then t[i].q else [])
    ensures freed == t[i].q
  {
    assert EntryOk(t[i]);
  }

  lemma CandidatesNone(t: seq<Entry>)
    ensures forall k: nat :: Candidate(t, 0, k, TABLE_SIZE, 0)
  {
  }

  lemma MatchIs(t: seq<Entry>, ip: Ip, i: nat)
    requires i <= |t| && (forall j :: 0 <= j < i ==> !(Live(t[j]) && t[j].ip == ip))
    requires i < |t| ==> Live(t[i]) && t[i].ip == ip
    ensures Match(t, ip) == i
  {
  }

  lemma AppendOk(t: seq<Entry>, i: nat, p: Packet)
    requires TableOk(t) && i < |t| && t[i].state == Pending
    ensures TableOk(t[i := t[i].(q := t[i].q + [p])])
  {
    assert EntryOk(t[i]);
    EditOk(t, i, t[i].(q := t[i].q + [p]));
  }

  lemma TickedOk(t: seq<Entry>, i: nat)
    requires TableOk(t) && i < |t|
    ensures TableOk(t[i := Ticked(t[i])])
  {
    assert EntryOk(t[i]);
    EditOk(t, i, Ticked(t[i]));
  }

  lemma TickNext(t: seq<Entry>, n: nat)
    requires n < |t|
    ensures n == 0 ==> TickFates(t[..0]) == []
    ensures TickFates(t[..n + 1]) ==
            TickFates(t[..n]) + if Overdue(Older(t[n])) then Fates(t[n].ip, t[n].q, Freed) else []
  {
    assert t[..n + 1][..n] == t[..n];
  }

  lemma TickStart(t: seq<Entry>, t': seq<Entry>)
    requires |t| == |t'|
    ensures TickFates(t[..0]) == [] && Dequeues([]) == [] && Dropped(t[..0], t'[..0]) == []
  {
  }

  lemma DroppedNext(t: seq<Entry>, t': seq<Entry>, n: nat)
    requires n < |t| == |t'|
    ensures Dropped(t[..n + 1], t'[..n + 1]) ==
            Dropped(t[..n], t'[..n]) + if Live(t[n]) && !Live(t'[n]) then t[n].q else []
  {
    assert t[..n + 1][..n] == t[..n] && t'[..n + 1][..n] == t'[..n];
  }

  lemma TickedOnce(t: seq<Entry>)
    ensures forall i :: 0 <= i < |t| ==> Ticks(t[i], 1) == Ticked(t[i])
  {
    forall i | 0 <= i < |t| ensures Ticks(t[i], 1) == Ticked(t[i]) {
      assert Ticks(t[i], 1) == Ticked(Ticks(t[i], 0));
    }
  }

  lemma AccountsSame(t: seq<Entry>, i: nat, e: Entry, taken: seq<Taken>, done: seq<Done>)
    requires i < |t| && e.ip == t[i].ip && e.q == t[i].q && Accounts(t, taken, done)
    ensures Accounts(t[i := e], taken, done)
  {
    hide TakenFor, DoneFor, Waiting;
    forall ip ensures TakenFor(taken, ip) == DoneFor(done, ip) + Waiting(t[i := e], ip) {
      WaitingAround(t, i, ip);
      WaitingAround(t[i := e], i, ip);
      assert t[i := e][..i] == t[..i] && t[i := e][i + 1..] == t[i + 1..];
    }
  }
}
