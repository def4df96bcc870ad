/** Machine words, optional results, and the bytes of a chain of buffers. */
module Basics {

  type u8 = x: int | 0 <= x < 0x100
  type byte = u8
  type u16 = x: int | 0 <= x < 0x1_0000
  type u32 = x: int | 0 <= x < 0x1_0000_0000
  type s16 = x: int | -0x8000 <= x < 0x8000

  datatype Option<+T> = None | Some(value: T)

  /** The bytes of the buffers of a chain, in a row. */
  function Flat(chain: seq<seq<byte>>): seq<byte> {
    if chain == [] then [] else chain[0] + Flat(chain[1..])
  }

  lemma {:induction false} FlatJoin(a: seq<seq<byte>>, b: seq<seq<byte>>)
    ensures Flat(a + b) == Flat(a) + Flat(b)
    decreases |a|
  {
    if a == [] {
      assert a + b == b;
    } else {
      FlatJoin(a[1..], b);
      assert (a + b)[1..] == a[1..] + b;
    }
  }

  lemma FlatOne(s: seq<byte>)
    ensures Flat([s]) == s && Flat([]) == []
  {
    assert Flat([s][1..]) == [];
  }

  lemma FlatAppend(chain: seq<seq<byte>>, s: seq<byte>)
    ensures Flat(chain + [s]) == Flat(chain) + s
  {
    hide Flat;
    FlatJoin(chain, [s]);
    FlatOne(s);
  }

  lemma FlatFrom(chain: seq<seq<byte>>, i: nat)
    requires i < |chain|
    ensures Flat(chain[i..]) == chain[i] + Flat(chain[i + 1..])
  {
    assert chain[i..][1..] == chain[i + 1..];
  }

  lemma FlatTo(chain: seq<seq<byte>>, i: nat)
    requires i < |chain|
    ensures Flat(chain[..i + 1]) == Flat(chain[..i]) + chain[i]
  {
    hide Flat;
    assert chain[..i + 1] == chain[..i] + [chain[i]];
    FlatAppend(chain[..i], chain[i]);
  }

  lemma FlatAt(chain: seq<seq<byte>>, i: nat)
    requires i < |chain|
    ensures Flat(chain) == Flat(chain[..i]) + chain[i] + Flat(chain[i + 1..])
    ensures Flat(chain[i..]) == chain[i] + Flat(chain[i + 1..])
    ensures Flat(chain[..i + 1]) == Flat(chain[..i]) + chain[i]
  {
    hide Flat;
    FlatFrom(chain, i);
    FlatTo(chain, i);
    assert chain == chain[..i + 1] + chain[i + 1..];
    FlatJoin(chain[..i + 1], chain[i + 1..]);
  }
}
