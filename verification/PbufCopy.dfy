/**
 The operations of pbuf.c that move bytes, on the payloads of a chain in order.
 */
module PbufCopy {
  import opened Basics

  type Chain = seq<seq<u8>>

  /** ERR_OK, ERR_ARG, ERR_VAL; `Stuck` is a failed assertion. */
  datatype Err = Ok | Arg | Val | Stuck

  predicate SameShape(c: Chain, d: Chain) {
    |c| == |d| && forall i :: 0 <= i < |c| ==> |c[i]| == |d[i]|
  }

  /** A chain is one packet without empty pbufs at its end. */
  predicate Tight(c: Chain) {
    c != [] && (|c| == 1 || c[|c| - 1] != [])
  }

  // ----- from a chain into a buffer

  /** `len` bytes from `offset` on, as far as there are any. */
  function Slice(s: seq<u8>, len: nat, offset: nat): seq<u8> {
    if offset >= |s| then [] else if len <= |s| - offset then s[offset..offset + len] else s[offset..]
  }

  lemma SliceStep(a: seq<u8>, b: seq<u8>, len: nat, offset: nat)
    ensures offset >= |a| ==> Slice(a + b, len, offset) == Slice(b, len, offset - |a|)
    ensures offset < |a| && len <= |a| - offset ==> Slice(a + b, len, offset) == a[offset..offset + len]
    ensures offset < |a| && len > |a| - offset ==>
              Slice(a + b, len, offset) == a[offset..] + Slice(b, len - (|a| - offset), 0)
  {
  }

  /** pbuf_copy_partial: the bytes written to the buffer, whose number is returned. */
  method CopyPartial(buf: Chain, len0: nat, offset0: nat) returns (data: seq<u8>)
    ensures data == Slice(Flat(buf), len0, offset0)
  {
    hide Flat, Slice;
    var p, len, offset := 0, len0, offset0;
    data := [];
    assert buf[0..] == buf;
    while len != 0 && p < |buf|
      invariant 0 <= p <= |buf| && 0 <= len && 0 <= offset
      invariant Slice(Flat(buf), len0, offset0) == data + Slice(Flat(buf[p..]), len, offset)
      decreases |buf| - p
    {
      FlatAt(buf, p);
      SliceStep(buf[p], Flat(buf[p + 1..]), len, offset);
      if offset != 0 && offset >= |buf[p]| {
        offset := offset - |buf[p]|;
      } else {
        var n := |buf[p]| - offset;
        if n > len {
          n := len;
        }
        SliceNone(Flat(buf[p + 1..]), 0);
        data := data + buf[p][offset..offset + n];
        len := len - n;
        offset := 0;
      }
      p := p + 1;
    }
    assert Slice(Flat(buf[p..]), len, offset) == [] by {
      SliceEnd(buf[p..], len, offset);
    }
  }

  lemma SliceNone(s: seq<u8>, offset: nat)
    ensures Slice(s, 0, offset) == []
  {
  }

  lemma SliceEnd(c: Chain, len: nat, offset: nat)
    requires len == 0 || c == []
    ensures Slice(Flat(c), len, offset) == []
  {
  }

  // ----- from a buffer into a chain

  /** The first bytes replaced, the others kept. */
  function Overwrite(s: seq<u8>, data: seq<u8>): seq<u8>
    requires |data| <= |s|
  {
    data + s[|data|..]
  }

  /** pbuf_take */
  method Take(buf0: Chain, data: seq<u8>) returns (buf: Chain, err: Err)
    ensures SameShape(buf, buf0) && err == if |Flat(buf0)| < |data| then Arg else Ok
    ensures err == Arg ==> buf == buf0
    ensures err == Ok ==> |data| <= |Flat(buf0)| && Flat(buf) == Overwrite(Flat(buf0), data)
  {
    hide Flat;
    buf := buf0;
    if |Flat(buf0)| < |data| {
      return buf, Arg;
    }
    var p, left, copied := 0, |data|, 0;
    assert buf0[0..] == buf0 && buf0[..0] == [];
    FlatOne([]);
    while left != 0
      invariant 0 <= p <= |buf| && SameShape(buf, buf0) && copied + left == |data| && 0 <= copied <= |data|
      invariant buf[p..] == buf0[p..] && left <= |Flat(buf0[p..])|
      invariant left != 0 ==> Flat(buf[..p]) == data[..copied] && |Flat(buf0[..p])| == copied
      invariant left == 0 ==> Flat(buf) == Overwrite(Flat(buf0), data)
      decreases |buf| - p
    {
      RoomLeft(buf0, p, left);
      ghost var before := buf;
      var n := left;
      if n > |buf[p]| {
        n := |buf[p]|;
      }
      buf := buf[p := data[copied..copied + n] + buf[p][n..]];
      TakeStep(buf0, before, p, data, copied, left, n, buf);
      left := left - n;
      copied := copied + n;
      p := p + 1;
    }
    err := Ok;
  }

  lemma TakeStep(buf0: Chain, buf: Chain, p: nat, data: seq<u8>, copied: nat, left: nat, n: nat, buf': Chain)
    requires p < |buf| == |buf0| && buf[p..] == buf0[p..] && copied + left == |data| && left <= |Flat(buf0[p..])|
    requires Flat(buf[..p]) == data[..copied] && |Flat(buf0[..p])| == copied
    requires n == (if left > |buf[p]| then |buf[p]| else left)
    requires |buf'| == |buf| && buf'[..p] == buf[..p] && buf'[p + 1..] == buf[p + 1..]
    requires buf'[p] == data[copied..copied + n] + buf[p][n..]
    ensures left - n != 0 ==> Flat(buf'[..p + 1]) == data[..copied + n] && |Flat(buf0[..p + 1])| == copied + n
    ensures left - n != 0 ==> left - n <= |Flat(buf0[p + 1..])|
    ensures left - n == 0 ==> |data| <= |Flat(buf0)| && Flat(buf') == Overwrite(Flat(buf0), data)
  {
    hide Flat;
    assert buf0[p] == buf0[p..][0] == buf[p] && buf0[p + 1..] == buf0[p..][1..] == buf[p + 1..];
    FlatAt(buf0, p);
    FlatAt(buf', p);
    if left - n == 0 {
      assert Flat(buf') == data[..copied] + (data[copied..] + buf[p][n..]) + Flat(buf[p + 1..]);
      assert Flat(buf0)[|data|..] == buf0[p][n..] + Flat(buf0[p + 1..]);
      assert data == data[..copied] + data[copied..];
    }
  }

  lemma RoomLeft(c: Chain, p: nat, left: nat)
    requires p <= |c| && 0 < left <= |Flat(c[p..])|
    ensures p < |c|
  {
  }

  /** Taking data into a chain and copying out of it: what was taken comes back, what lies behind it
      is as it was. */
  method TakeCopy(buf0: Chain, data: seq<u8>, len: nat, offset: nat) returns (err: Err, copied: seq<u8>)
    ensures err == if |Flat(buf0)| < |data| then Arg else Ok
    ensures err == Arg ==> copied == Slice(Flat(buf0), len, offset)
    ensures err == Ok && offset + len <= |data| ==> copied == data[offset..offset + len]
    ensures err == Ok && offset >= |data| ==> copied == Slice(Flat(buf0), len, offset)
    ensures err == Ok && offset < |data| < offset + len ==>
              copied == data[offset..] + Slice(Flat(buf0), offset + len - |data|, |data|)
  {
    hide Flat, SameShape;
    var buf;
    buf, err := Take(buf0, data);
    copied := CopyPartial(buf, len, offset);
    if err == Ok {
      SliceTaken(Flat(buf0), data, len, offset);
    }
  }

  lemma SliceTaken(s: seq<u8>, data: seq<u8>, len: nat, offset: nat)
    requires |data| <= |s|
    ensures var r := Slice(Overwrite(s, data), len, offset);
            && (offset + len <= |data| ==> r == data[offset..offset + len])
            && (offset >= |data| ==> r == Slice(s, len, offset))
            && (offset < |data| < offset + len ==> r == data[offset..] + Slice(s, offset + len - |data|, |data|))
  {
    var t := Overwrite(s, data);
    assert forall i :: 0 <= i < |t| ==> t[i] == if i < |data| then data[i] else s[i];
  }

  // ----- from chain to chain

  /** The copy after `copied` bytes: the target so far, and where both cursors are. */
  ghost predicate Copying(from: Chain, to0: Chain, to: Chain, copied: nat, p: nat, offTo: nat, q: nat, offFrom: nat) {
    && p <= |to| && q <= |from| && SameShape(to, to0)
    && copied == |Flat(to[..p])| + offTo == |Flat(from[..q])| + offFrom
    && (if p < |to| then offTo <= |to[p]| else offTo == 0) && (if q < |from| then offFrom <= |from[q]| else offFrom == 0)
    && copied <= |Flat(from)| <= |Flat(to0)| && Flat(to) == Overwrite(Flat(to0), Flat(from)[..copied])
  }

  /** pbuf_copy. The copy is refused for lack of room. It is given up where a chain turns out to
      have empty pbufs at its end, and gets stuck if the target ends before such pbufs of the source
      were passed. */
  method Copy(to0: Chain, from: Chain) returns (to: Chain, err: Err)
    ensures SameShape(to, to0)
    ensures err == Arg <==> to0 == [] || from == [] || |Flat(to0)| < |Flat(from)|
    ensures err == Arg ==> to == to0
    ensures err == Ok ==> |Flat(from)| <= |Flat(to0)| && Flat(to) == Overwrite(Flat(to0), Flat(from))
    ensures err == Val ==> !Tight(to0) || !Tight(from)
    ensures err == Stuck ==> !Tight(from)
    ensures err == Val || err == Stuck ==> |Flat(from)| <= |Flat(to0)| && PartCopied(to, to0, from)
  {
    hide Flat, Copying, PartCopied;
    to := to0;
    if to0 == [] || from == [] || |Flat(to0)| < |Flat(from)| {
      return to, Arg;
    }
    var p: nat, offTo: nat, q: nat, offFrom: nat := 0, 0, 0, 0;
    ghost var copied: nat := 0;
    CopyStart(from, to0);
    while true
      invariant p < |to| && q < |from| && Copying(from, to0, to, copied, p, offTo, q, offFrom)
      decreases |from| - q + |to| - p
    {
      var n: nat := 0;
      CopyRange(from, to0, to, copied, p, offTo, q, offFrom);
      if |to[p]| - offTo >= |from[q]| - offFrom {
        n := |from[q]| - offFrom;
      } else {
        n := |to[p]| - offTo;
      }
      ghost var before := to;
      to := to[p := to[p][..offTo] + from[q][offFrom..offFrom + n] + to[p][offTo + n..]];
      CopyBytes(from, to0, before, to, copied, p, offTo, q, offFrom, n);
      offTo, offFrom := offTo + n, offFrom + n;
      copied := copied + n;
      CopyMove(from, to0, to, copied, p, offTo, q, offFrom);
      if offTo == |to[p]| {
        offTo := 0;
        p := p + 1;
      }
      if offFrom >= |from[q]| {
        offFrom := 0;
        q := q + 1;
      }
      CopyPart(from, to0, to, copied, p, offTo, q, offFrom);
      if q < |from| && |from[q]| == |Flat(from[q..])| && q + 1 < |from| {
        NotTight(from, from, q);
        return to, Val;
      }
      if p < |to| && |to[p]| == |Flat(to[p..])| && p + 1 < |to| {
        NotTight(to, to0, p);
        return to, Val;
      }
      if q == |from| {
        CopyEnd(from, to0, to, copied, p, offTo, offFrom);
        break;
      }
      if p == |to| {
        CopyMore(from, to0, to, copied, p, offTo, q, offFrom);
        return to, Stuck;
      }
    }
    err := Ok;
  }

  /** The source's first bytes, and no others, were copied. */
  ghost predicate PartCopied(to: Chain, to0: Chain, from: Chain)
    requires |Flat(from)| <= |Flat(to0)|
  {
    exists n: nat :: n <= |Flat(from)| && Flat(to) == Overwrite(Flat(to0), Flat(from)[..n])
  }

  lemma CopyPart(from: Chain, to0: Chain, to: Chain, copied: nat, p: nat, offTo: nat, q: nat, offFrom: nat)
    requires Copying(from, to0, to, copied, p, offTo, q, offFrom)
    ensures |Flat(from)| <= |Flat(to0)| && PartCopied(to, to0, from) && SameShape(to, to0)
    ensures p <= |to| && q <= |from|
  {
  }

  lemma CopyStart(from: Chain, to0: Chain)
    requires from != [] && to0 != [] && |Flat(from)| <= |Flat(to0)|
    ensures Copying(from, to0, to0, 0, 0, 0, 0, 0)
  {
  }

  lemma CopyRange(from: Chain, to0: Chain, to: Chain, copied: nat, p: nat, offTo: nat, q: nat, offFrom: nat)
    requires Copying(from, to0, to, copied, p, offTo, q, offFrom)
    ensures p < |to| ==> offTo <= |to[p]|
    ensures q < |from| ==> offFrom <= |from[q]|
    ensures SameShape(to, to0)
  {
  }

  lemma CopyBytes(from: Chain, to0: Chain, to: Chain, to': Chain, copied: nat, p: nat, offTo: nat, q: nat, offFrom: nat, n: nat)
    requires p < |to| && q < |from| && Copying(from, to0, to, copied, p, offTo, q, offFrom)
    requires offTo + n <= |to[p]| && offFrom + n <= |from[q]|
    requires |to'| == |to| && to'[..p] == to[..p] && to'[p + 1..] == to[p + 1..]
    requires to'[p] == to[p][..offTo] + from[q][offFrom..offFrom + n] + to[p][offTo + n..]
    ensures Copying(from, to0, to', copied + n, p, offTo + n, q, offFrom + n)
  {
    hide Flat, SameShape;
    var s, t, a, b := Flat(from), Flat(to0), Flat(to[..p]), Flat(to[p + 1..]);
    FlatAt(from, q);
    FlatAt(to, p);
    FlatAt(to', p);
    var piece := from[q][offFrom..offFrom + n];
    assert piece == s[copied..copied + n];
    assert Flat(to') == Flat(to)[..copied] + piece + Flat(to)[copied + n..];
    assert Flat(to)[..copied] == s[..copied] && Flat(to)[copied + n..] == t[copied + n..];
    assert s[..copied] + piece == s[..copied + n];
    CopyShape(to0, to, to', p);
  }

  lemma CopyShape(to0: Chain, to: Chain, to': Chain, p: nat)
    requires p < |to| && SameShape(to, to0) && |to'| == |to| && to'[..p] == to[..p] && to'[p + 1..] == to[p + 1..]
    requires |to'[p]| == |to[p]|
    ensures SameShape(to', to0)
  {
    assert forall i :: 0 <= i < p ==> to'[i] == to'[..p][i];
    assert forall i :: p < i < |to| ==> to'[i] == to'[p + 1..][i - p - 1];
  }

  lemma CopyMove(from: Chain, to0: Chain, to: Chain, copied: nat, p: nat, offTo: nat, q: nat, offFrom: nat)
    requires p < |to| && q < |from| && Copying(from, to0, to, copied, p, offTo, q, offFrom)
    ensures var endTo, endFrom := offTo == |to[p]|, offFrom >= |from[q]|;
            Copying(from, to0, to, copied, if endTo then p + 1 else p, if endTo then 0 else offTo,
                    if endFrom then q + 1 else q, if endFrom then 0 else offFrom)
  {
    hide Flat, SameShape;
    FlatAt(from, q);
    FlatAt(to, p);
  }

  lemma NotTight(to: Chain, to0: Chain, p: nat)
    requires p + 1 < |to| && |to[p]| == |Flat(to[p..])| && SameShape(to, to0)
    ensures !Tight(to0)
  {
    FlatAt(to, p);
    FlatLast(to, p + 1);
  }

  /** The last pbuf is part of what follows any other. */
  lemma {:induction false} FlatLast(c: Chain, p: nat)
    requires p < |c|
    ensures |Flat(c[p..])| >= |c[|c| - 1]|
    decreases |c| - p
  {
    FlatAt(c, p);
    if p + 1 < |c| {
      FlatLast(c, p + 1);
    }
  }

  lemma CopyEnd(from: Chain, to0: Chain, to: Chain, copied: nat, p: nat, offTo: nat, offFrom: nat)
    requires Copying(from, to0, to, copied, p, offTo, |from|, offFrom)
    ensures Flat(to) == Overwrite(Flat(to0), Flat(from))
  {
    hide Flat, SameShape;
    assert from[..|from|] == from && Flat(from)[..|Flat(from)|] == Flat(from);
  }

  /** While bytes are left in the source there is room left in the target. */
  lemma CopyMore(from: Chain, to0: Chain, to: Chain, copied: nat, p: nat, offTo: nat, q: nat, offFrom: nat)
    requires Copying(from, to0, to, copied, p, offTo, q, offFrom) && q < |from| && p == |to|
    ensures Tight(from) ==> offFrom >= |from[q]| && (offFrom > 0 || q == 0)
  {
    hide Flat;
    FlatAt(from, q);
    FlatLast(from, q);
    assert to[..|to|] == to;
  }
}
