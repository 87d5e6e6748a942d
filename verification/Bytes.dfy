/** Bytes and the flattening of a list of chunks into one stream. */
module Bytes {

  type Byte = x: int | 0 <= x < 256

  /** The stream that a list of chunks stands for. */
  ghost function Flatten(chunks: seq<seq<Byte>>): (r: seq<Byte>)
  {
    if chunks == [] then [] else chunks[0] + Flatten(chunks[1..])
  }

  lemma {:induction false} FlattenConcat(a: seq<seq<Byte>>, b: seq<seq<Byte>>)
    ensures Flatten(a + b) == Flatten(a) + Flatten(b)
  {
    if a == [] {
      assert a + b == b;
    } else {
      assert (a + b)[1..] == a[1..] + b;
      FlattenConcat(a[1..], b);
    }
  }

  lemma FlattenOne(c: seq<Byte>)
    ensures Flatten([c]) == c
  {
    assert Flatten([]) == [];
  }

  /** Cutting the list at chunk k cuts the stream. */
  lemma FlattenCut(s: seq<seq<Byte>>, k: nat)
    requires k <= |s|
    ensures Flatten(s) == Flatten(s[..k]) + Flatten(s[k..])
  {
    assert s == s[..k] + s[k..];
    FlattenConcat(s[..k], s[k..]);
  }

  lemma FlattenAt(s: seq<seq<Byte>>, k: nat)
    requires k < |s|
    ensures Flatten(s) == Flatten(s[..k]) + s[k] + Flatten(s[k+1..])
  {
    FlattenCut(s, k);
    assert s[k..][1..] == s[k+1..];
  }

  lemma FlattenLast(s: seq<seq<Byte>>)
    requires s != []
    ensures Flatten(s) == Flatten(s[..|s|-1]) + s[|s|-1]
  {
    FlattenAt(s, |s| - 1);
    assert s[|s|..] == [];
  }

  lemma {:induction false} FlattenEmpty(s: seq<seq<Byte>>)
    requires forall i :: 0 <= i < |s| ==> s[i] == []
    ensures Flatten(s) == []
  {
    if s != [] {
      FlattenEmpty(s[1..]);
    }
  }
}
