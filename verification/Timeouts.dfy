/**
 The timeout list of sys.c. Each entry stores the time after the one before it; the list always
 stands for a sorted list of deadlines.
 */
module Timeouts {
  import opened Basics

  /** An entry as stored: time relative to the entry before, handler, argument. */
  datatype Timeo = Timeo(time: u32, h: int, arg: int)

  /** An entry as meant: deadline, handler, argument. */
  datatype Due = Due(at: int, h: int, arg: int)

  /** What the stored list means, its first entry being relative to `from`. */
  function Dues(ts: seq<Timeo>, from: int): seq<Due> {
    if ts == [] then []
    else [Due(from + ts[0].time, ts[0].h, ts[0].arg)] + Dues(ts[1..], from + ts[0].time)
  }

  /** Time until the last entry; it must fit the 32-bit field. */
  function Total(ts: seq<Timeo>): nat {
    if ts == [] then 0 else ts[0].time + Total(ts[1..])
  }

  predicate Sorted(ds: seq<Due>) {
    forall i, j :: 0 <= i < j < |ds| ==> ds[i].at <= ds[j].at
  }

  predicate Matches(d: Due, h: int, arg: int) {
    d.h == h && d.arg == arg
  }

  // ----- on deadlines

  /** Insert behind every entry that is not later. */
  function InsertDue(ds: seq<Due>, d: Due): seq<Due> {
    if ds == [] || ds[0].at > d.at then [d] + ds else [ds[0]] + InsertDue(ds[1..], d)
  }

  /** Remove the first entry with this handler and argument. */
  function RemoveDue(ds: seq<Due>, h: int, arg: int): seq<Due> {
    if ds == [] then [] else if Matches(ds[0], h, arg) then ds[1..]
    else [ds[0]] + RemoveDue(ds[1..], h, arg)
  }

  /** Insertion adds exactly the new deadline, behind all that are due no later. */
  lemma {:induction false} InsertDueIs(ds: seq<Due>, d: Due, k: nat)
    requires k <= |ds| && (forall i :: 0 <= i < k ==> ds[i].at <= d.at) && (k < |ds| ==> ds[k].at > d.at)
    ensures InsertDue(ds, d) == ds[..k] + [d] + ds[k..]
    decreases |ds|
  {
    if k > 0 {
      InsertDueIs(ds[1..], d, k - 1);
      assert ds[1..][..k - 1] == ds[..k][1..] && ds[1..][k - 1..] == ds[k..];
    }
  }

  /** Removal takes out the first match and nothing else. */
  lemma {:induction false} RemoveDueIs(ds: seq<Due>, h: int, arg: int, k: nat)
    requires k <= |ds| && (forall i :: 0 <= i < k ==> !Matches(ds[i], h, arg))
    requires k < |ds| ==> Matches(ds[k], h, arg)
    ensures RemoveDue(ds, h, arg) == if k < |ds| then ds[..k] + ds[k + 1..] else ds
    decreases |ds|
  {
    if k > 0 {
      RemoveDueIs(ds[1..], h, arg, k - 1);
      assert ds[1..][..k - 1] == ds[..k][1..];
    }
  }

  // ----- on stored lists

  function InsertRel(ts: seq<Timeo>, t: Timeo): seq<Timeo> {
    if ts == [] then [t]
    else if ts[0].time > t.time then [t, ts[0].(time := ts[0].time - t.time)] + ts[1..]
    else [ts[0]] + InsertRel(ts[1..], t.(time := t.time - ts[0].time))
  }

  /** Give the time of a removed entry back to its successor. */
  function Later(ts: seq<Timeo>, time: nat): seq<Timeo>
    requires ts != [] ==> ts[0].time + time < 0x1_0000_0000
  {
    if ts == [] then [] else [ts[0].(time := ts[0].time + time)] + ts[1..]
  }

  function RemoveRel(ts: seq<Timeo>, h: int, arg: int): seq<Timeo>
    requires Total(ts) < 0x1_0000_0000
  {
    if ts == [] then []
    else if ts[0].h == h && ts[0].arg == arg then
      assert ts[1..] != [] ==> ts[1..][0].time <= Total(ts[1..]);
      Later(ts[1..], ts[0].time)
    else [ts[0]] + RemoveRel(ts[1..], h, arg)
  }

  lemma {:induction false} DuesSorted(ts: seq<Timeo>, from: int)
    ensures |Dues(ts, from)| == |ts| && Sorted(Dues(ts, from))
    ensures forall i :: 0 <= i < |ts| ==> from <= Dues(ts, from)[i].at <= from + Total(ts)
    decreases |ts|
  {
    if ts != [] {
      DuesSorted(ts[1..], from + ts[0].time);
    }
  }

  /** Inserting relative times inserts the deadline, and shifts no other. */
  lemma {:induction false} InsertRelOk(ts: seq<Timeo>, t: Timeo, from: int)
    ensures Dues(InsertRel(ts, t), from) == InsertDue(Dues(ts, from), Due(from + t.time, t.h, t.arg))
    ensures Total(InsertRel(ts, t)) == if Total(ts) < t.time then t.time else Total(ts)
    decreases |ts|
  {
    var r := InsertRel(ts, t);
    if ts == [] {
      assert r[1..] == [];
    } else if ts[0].time > t.time {
      assert r[1..][1..] == ts[1..];
      assert Dues(r, from) == [Due(from + t.time, t.h, t.arg)] + Dues(ts, from);
    } else {
      InsertRelOk(ts[1..], t.(time := t.time - ts[0].time), from + ts[0].time);
    }
  }

  lemma {:induction false} RemoveRelOk(ts: seq<Timeo>, h: int, arg: int, from: int)
    requires Total(ts) < 0x1_0000_0000
    ensures Dues(RemoveRel(ts, h, arg), from) == RemoveDue(Dues(ts, from), h, arg)
    ensures Total(RemoveRel(ts, h, arg)) <= Total(ts)
    decreases |ts|
  {
    if ts != [] {
      if ts[0].h == h && ts[0].arg == arg {
        if |ts| > 1 {
          assert Later(ts[1..], ts[0].time)[1..] == ts[1..][1..];
        }
      } else {
        RemoveRelOk(ts[1..], h, arg, from + ts[0].time);
      }
    }
  }

  /** Letting `t` pass brings every deadline closer by `t`. */
  lemma {:induction false} ShiftDues(ts: seq<Timeo>, from: int, t: int)
    ensures |Dues(ts, from)| == |Dues(ts, from - t)| == |ts|
    ensures forall i :: 0 <= i < |ts| ==> Dues(ts, from - t)[i] == Dues(ts, from)[i].(at := Dues(ts, from)[i].at - t)
    decreases |ts|
  {
    if ts != [] {
      ShiftDues(ts[1..], from + ts[0].time, t);
    }
  }

  // ----- the list in memory

  class TimeoutList {
    var next: seq<Timeo>
    ghost var now: int  // the time the first entry is relative to

    ghost function Deadlines(): seq<Due>
      reads this
    {
      Dues(next, now)
    }

    ghost predicate Valid()
      reads this
    {
      Total(next) < 0x1_0000_0000
    }

    constructor ()
      ensures Valid() && Deadlines() == []
    {
      next, now := [], 0;
    }

    /** sys_timeout; `mem` says whether memory for an entry was found. */
    method SysTimeout(msecs: u32, h: int, arg: int, mem: bool)
      requires Valid()
      modifies this`next
      ensures Valid()
      ensures Deadlines() == if mem then InsertDue(old(Deadlines()), Due(now + msecs, h, arg)) else old(Deadlines())
    {
      if !mem {
        return;
      }
      ghost var t := Timeo(msecs, h, arg);
      InsertRelOk(next, t, now);
      if next == [] {
        next := [Timeo(msecs, h, arg)];
        return;
      }
      if next[0].time > msecs {
        next := [Timeo(msecs, h, arg), next[0].(time := next[0].time - msecs)] + next[1..];
        return;
      }
      next := Link(next, msecs, h, arg);
    }

    /** sys_untimeout */
    method SysUntimeout(h: int, arg: int)
      requires Valid()
      modifies this`next
      ensures Valid() && Deadlines() == RemoveDue(old(Deadlines()), h, arg)
    {
      RemoveRelOk(next, h, arg, now);
      next := Unlink(next, h, arg);
    }

    /** The list handling of sys_mbox_fetch when a message arrives after `needed` ms. No deadline
        moves while the first one has not passed; if it has, the others are late by the excess. */
    method Elapse(needed: u32)
      requires Valid() && next != []
      modifies this
      ensures Valid() && now == old(now) + needed
      ensures |Deadlines()| == |old(Deadlines())| == |old(next)|
      ensures forall i :: 0 <= i < |old(next)| ==>
                Deadlines()[i] == old(Deadlines())[i].(at :=
                  old(Deadlines())[i].at + if needed <= old(next)[0].time then 0 else needed - old(next)[0].time)
    {
      ghost var ts, gone := next, if needed < next[0].time then needed else next[0].time;
      if needed < next[0].time {
        next := [next[0].(time := next[0].time - needed)] + next[1..];
      } else {
        next := [next[0].(time := 0)] + next[1..];
      }
      now := now + needed;
      assert next[1..] == ts[1..];
      ShiftDues(ts, old(now), gone - needed);
      assert Dues(next, now) == Dues(ts, old(now) - (gone - needed));
    }

    /** The first timeout fires after exactly its time has been waited. */
    method Expire() returns (h: int, arg: int)
      requires Valid() && next != []
      modifies this
      ensures Valid() && old(Deadlines()) == [Due(now, h, arg)] + Deadlines()
    {
      h, arg := next[0].h, next[0].arg;
      now := now + next[0].time;
      next := next[1..];
    }
  }

  /** The walk of sys_timeout: subtract the times passed, link in before a later entry. */
  method Link(ts: seq<Timeo>, msecs: u32, h: int, arg: int) returns (r: seq<Timeo>)
    requires ts != [] && ts[0].time <= msecs
    ensures r == InsertRel(ts, Timeo(msecs, h, arg))
  {
    hide InsertRel;
    var time: u32, i := msecs, 0;
    assert ts[0..] == ts && ts[..0] == [];
    while true
      invariant 0 <= i < |ts| && ts[i].time <= time
      invariant InsertRel(ts, Timeo(msecs, h, arg)) == ts[..i] + InsertRel(ts[i..], Timeo(time, h, arg))
      decreases |ts| - i
    {
      LinkStep(ts, i, Timeo(time, h, arg));
      time := time - ts[i].time;
      LinkStop(ts, i + 1, Timeo(time, h, arg));
      if i + 1 == |ts| || ts[i + 1].time > time {
        var rest := ts[i + 1..];
        if rest != [] {
          rest := [rest[0].(time := rest[0].time - time)] + rest[1..];
        }
        r := ts[..i + 1] + [Timeo(time, h, arg)] + rest;
        return;
      }
      i := i + 1;
    }
  }

  lemma LinkStep(ts: seq<Timeo>, i: nat, t: Timeo)
    requires i < |ts| && ts[i].time <= t.time
    ensures ts[..i] + InsertRel(ts[i..], t) == ts[..i + 1] + InsertRel(ts[i + 1..], t.(time := t.time - ts[i].time))
  {
    hide InsertRel;
    var rest := InsertRel(ts[i + 1..], t.(time := t.time - ts[i].time));
    assert InsertRel(ts[i..], t) == [ts[i]] + rest by {
      InsertRelPast(ts[i..], t);
      assert ts[i..][1..] == ts[i + 1..];
    }
    assert ts[..i + 1] == ts[..i] + [ts[i]];
    assert ts[..i] + ([ts[i]] + rest) == (ts[..i] + [ts[i]]) + rest;
  }

  lemma InsertRelPast(ts: seq<Timeo>, t: Timeo)
    requires ts != [] && ts[0].time <= t.time
    ensures InsertRel(ts, t) == [ts[0]] + InsertRel(ts[1..], t.(time := t.time - ts[0].time))
  {
  }

  lemma LinkStop(ts: seq<Timeo>, i: nat, t: Timeo)
    requires i <= |ts|
    ensures i == |ts| ==> InsertRel(ts[i..], t) == [t]
    ensures i < |ts| && ts[i].time > t.time ==>
              InsertRel(ts[i..], t) == [t] + ([ts[i].(time := ts[i].time - t.time)] + ts[i + 1..])
  {
    if i < |ts| {
      assert ts[i..][1..] == ts[i + 1..];
    }
  }

  /** The walk of sys_untimeout. */
  method Unlink(ts: seq<Timeo>, h: int, arg: int) returns (r: seq<Timeo>)
    requires Total(ts) < 0x1_0000_0000
    ensures r == RemoveRel(ts, h, arg)
  {
    hide RemoveRel, Total;
    var i := 0;
    assert ts[0..] == ts && ts[..0] == [];
    while i < |ts|
      invariant 0 <= i <= |ts| && Total(ts[i..]) < 0x1_0000_0000
      invariant RemoveRel(ts, h, arg) == ts[..i] + RemoveRel(ts[i..], h, arg)
    {
      UnlinkStep(ts, i, h, arg);
      if ts[i].h == h && ts[i].arg == arg {
        var rest := ts[i + 1..];
        if rest != [] {
          rest := [rest[0].(time := rest[0].time + ts[i].time)] + rest[1..];
        }
        return ts[..i] + rest;
      }
      i := i + 1;
    }
    assert ts[..i] == ts && ts[i..] == [];
    RemoveNone(h, arg);
    r := ts;
  }

  lemma UnlinkStep(ts: seq<Timeo>, i: nat, h: int, arg: int)
    requires i < |ts| && Total(ts[i..]) < 0x1_0000_0000
    ensures Total(ts[i..]) == ts[i].time + Total(ts[i + 1..])
    ensures i + 1 < |ts| ==> ts[i + 1].time <= Total(ts[i + 1..])
    ensures ts[..i] + RemoveRel(ts[i..], h, arg) ==
            if ts[i].h == h && ts[i].arg == arg then ts[..i] + Later(ts[i + 1..], ts[i].time)
            else ts[..i + 1] + RemoveRel(ts[i + 1..], h, arg)
  {
    var rest := ts[i + 1..];
    assert ts[i..] == [ts[i]] + rest && ts[i..][1..] == rest && ts[..i + 1] == ts[..i] + [ts[i]];
    if !(ts[i].h == h && ts[i].arg == arg) {
      var tail := RemoveRel(rest, h, arg);
      assert RemoveRel(ts[i..], h, arg) == [ts[i]] + tail;
      assert ts[..i] + ([ts[i]] + tail) == (ts[..i] + [ts[i]]) + tail;
    }
  }

  lemma RemoveNone(h: int, arg: int)
    ensures Total([]) == 0 && RemoveRel([], h, arg) == []
  {
  }
}
