/** Evbuffers with spare empty chains at the tail: how they come about, and what goes wrong with them. */
module EvSpares {
  import opened Bytes
  import opened EvBuffers
  import opened EvReserve

  // ----- Reserving, filling and committing -----

  ghost function Memory(vecs: seq<IoVec>): set<array<Byte>>
  {
    set v | v in vecs :: v.base
  }

  /** The i-th vector takes as much of rest as it can. */
  method FillOne(buf: EvBuffer, vecs: seq<IoVec>, i: nat, rest: seq<Byte>, ghost filled: seq<IoVec>) returns (f: IoVec)
    requires buf.Valid() && FromStart(buf, vecs) && i < |vecs| && vecs[i].len > 0 && rest != []
    requires |filled| == i && forall j :: 0 <= j < i ==> filled[j].base == vecs[j].base
    modifies vecs[i].base
    ensures buf.Valid() && buf.Contents() == old(buf.Contents()) && Written(filled) == old(Written(filled))
    ensures |buf.chains| == |buf.chunks| && FromStart(buf, vecs)
    ensures f == vecs[i].(len := if |rest| < vecs[i].len then |rest| else vecs[i].len) && Piece(f) == rest[..f.len]
  {
    hide Flatten;
    ghost var s := Start(buf);
    var m := if |rest| < vecs[i].len then |rest| else vecs[i].len;
    f := vecs[i].(len := m);
    VecFits(buf, vecs, i);
    OthersApart(buf, vecs, i, filled);
    Fill(buf, f, rest[..m], buf.chains[Start(buf) + i], Start(buf) + i);
    assert Start(buf) == s;
    assert Fits(buf, vecs, s);
  }

  lemma VecFits(buf: EvBuffer, vecs: seq<IoVec>, i: nat)
    requires buf.Valid() && FromStart(buf, vecs) && i < |vecs|
    ensures Start(buf) + i < |buf.chains| && IsSpace(buf.chains[Start(buf) + i], vecs[i])
  {
    var v := vecs[i];
  }

  lemma OthersApart(buf: EvBuffer, vecs: seq<IoVec>, i: nat, filled: seq<IoVec>)
    requires buf.Valid() && FromStart(buf, vecs) && i < |vecs|
    requires |filled| == i && forall j :: 0 <= j < i ==> filled[j].base == vecs[j].base
    ensures forall w :: w in filled ==> w.base != vecs[i].base
  {
    forall w | w in filled ensures w.base != vecs[i].base {
      var j :| 0 <= j < i && filled[j] == w;
      Disjoint(buf, vecs, Start(buf), j, i);
    }
  }

  lemma WrittenMore(filled: seq<IoVec>, f: IoVec)
    ensures Written(filled + [f]) == Written(filled) + Piece(f)
  {
    assert (filled + [f])[..|filled|] == filled;
  }

  lemma TotalTaken(vecs: seq<IoVec>, i: nat)
    requires i < |vecs|
    ensures TotalLen(vecs[..i + 1]) == TotalLen(vecs[..i]) + vecs[i].len
  {
    assert vecs[..i + 1][..i] == vecs[..i];
  }

  /** The vectors are filled in order until d is used up. */
  method FillVecs(buf: EvBuffer, vecs: seq<IoVec>, d: seq<Byte>) returns (filled: seq<IoVec>)
    requires buf.Valid() && FromStart(buf, vecs) && |d| <= TotalLen(vecs) && forall j :: 0 <= j < |vecs| ==> vecs[j].len > 0
    modifies Memory(vecs)
    ensures buf.Valid() && buf.Contents() == old(buf.Contents()) && Written(filled) == d
    ensures |buf.chains| == |buf.chunks| && FromStart(buf, vecs)
    ensures |filled| <= |vecs| && InOrder(filled)
    ensures forall j :: 0 <= j < |filled| ==> filled[j].base == vecs[j].base && filled[j].start == vecs[j].start
                                              && filled[j].len <= vecs[j].len
  {
    hide EvBuffer.Valid, FromStart, Written, Piece, TotalLen, Flatten, InOrder;
    filled := [];
    var rest := d;
    NothingYet();
    ShapeLen(buf);
    while |filled| < |vecs| && rest != []
      invariant buf.Valid() && |buf.chains| == |buf.chunks| && FromStart(buf, vecs) && buf.Contents() == old(buf.Contents())
      invariant |filled| <= |vecs| && Written(filled) + rest == d
      invariant rest == [] || |d| - |rest| == TotalLen(vecs[..|filled|])
      invariant forall j :: 0 <= j < |filled| ==> filled[j].base == vecs[j].base && filled[j].start == vecs[j].start
                                                  && 0 < filled[j].len <= vecs[j].len
      decreases |vecs| - |filled|
    {
      TotalTaken(vecs, |filled|);
      var f := FillOne(buf, vecs, |filled|, rest, filled);
      WrittenMore(filled, f);
      MoveOver(Written(filled), rest, f.len);
      filled := filled + [f];
      rest := rest[f.len..];
    }
    assert vecs[..|vecs|] == vecs;
    AllUsed(filled);
  }

  lemma MoveOver(a: seq<Byte>, b: seq<Byte>, n: nat)
    requires n <= |b|
    ensures (a + b[..n]) + b[n..] == a + b
  {
  }

  lemma AllUsed(filled: seq<IoVec>)
    requires forall j :: 0 <= j < |filled| ==> filled[j].len > 0
    ensures InOrder(filled)
  {
  }

  lemma NothingYet()
    ensures Written([]) == [] && TotalLen([]) == 0
  {
  }

  /** evbuffer_reserve_space, what a caller has to write, and evbuffer_commit_space: exactly that is appended. */
  method ReserveFillCommit(buf: EvBuffer, size: nat, n: nat, d: seq<Byte>) returns (result: int)
    requires buf.Valid() && n >= 2 && |d| <= size
    modifies buf, Nodes(buf.chains), Buffers(buf.chains)
    ensures buf.Valid() && result == if buf.freezeEnd then -1 else 0
    ensures buf.Contents() == old(buf.Contents()) + if buf.freezeEnd then [] else d
  {
    var r, vecs := ReserveSpace(buf, size, n);
    if r < 0 {
      assert buf.Contents() + [] == buf.Contents();
      return -1;
    }
    BasesOwned(buf, vecs);
    result := FillCommit(buf, vecs, d);
  }

  method FillCommit(buf: EvBuffer, vecs: seq<IoVec>, d: seq<Byte>) returns (result: int)
    requires buf.Valid() && !buf.freezeEnd && FromStart(buf, vecs) && |d| <= TotalLen(vecs)
    requires forall j :: 0 <= j < |vecs| ==> vecs[j].len > 0
    modifies buf, Nodes(buf.chains), Memory(vecs)
    ensures buf.Valid() && !buf.freezeEnd && result == 0 && buf.Contents() == old(buf.Contents()) + d
  {
    hide EvBuffer.Valid, EvBuffer.Linked, FromStart, Written, Accepts, InOrder;
    var filled := FillVecs(buf, vecs, d);
    ReservedIsAccepted(buf, vecs, filled);
    result := CommitSpace(buf, filled);
  }

  lemma BasesOwned(buf: EvBuffer, vecs: seq<IoVec>)
    requires buf.Valid() && FromStart(buf, vecs)
    ensures Memory(vecs) <= Buffers(buf.chains)
  {
    forall v | v in vecs ensures v.base in Buffers(buf.chains) {
      var j :| 0 <= j < |vecs| && vecs[j] == v;
      var w := vecs[j];
      assert IsSpace(buf.chains[Start(buf) + j], w);
      assert buf.chains[Start(buf) + j] in buf.chains;
    }
  }

  // ----- Spare chains -----

  ghost function SumMemory(cs: seq<Chain>): nat
  {
    if cs == [] then 0 else SumMemory(cs[..|cs| - 1]) + cs[|cs| - 1].buffer.Length
  }

  lemma {:induction false} SumGrows(cs: seq<Chain>, k: nat)
    requires k <= |cs|
    ensures SumMemory(cs[..k]) <= SumMemory(cs)
  {
    if k == |cs| {
      assert cs[..k] == cs;
    } else {
      SumGrows(cs[..|cs| - 1], k);
      assert cs[..|cs| - 1][..k] == cs[..k];
    }
  }

  /** Vectors that fit are no longer than the memory of their chains. */
  lemma {:induction false} TotalFits(buf: EvBuffer, vecs: seq<IoVec>, k: nat)
    requires buf.Valid() && Fits(buf, vecs, k) && k + |vecs| <= |buf.chains|
    ensures TotalLen(vecs) <= SumMemory(buf.chains[..k + |vecs|])
  {
    if vecs != [] {
      var n := |vecs| - 1;
      var v := vecs[n];
      assert IsSpace(buf.chains[k + n], v);
      TotalFits(buf, vecs[..n], k);
      assert buf.chains[..k + |vecs|][..k + n] == buf.chains[..k + n];
    }
  }

  method Memories(buf: EvBuffer) returns (total: nat, count: nat)
    requires buf.Valid()
    ensures total == SumMemory(buf.chains) && count == |buf.chains|
  {
    total, count := 0, 0;
    var chain := buf.first;
    while chain != null
      invariant count <= |buf.chains| && chain == (if count < |buf.chains| then buf.chains[count] else null)
      invariant total == SumMemory(buf.chains[..count])
      decreases |buf.chains| - count
    {
      InList(buf, count);
      assert buf.chains[..count + 1][..count] == buf.chains[..count];
      total := total + chain.buffer.Length;
      chain, count := chain.next, count + 1;
    }
    assert buf.chains[..|buf.chains|] == buf.chains;
  }

  /** A reservation of more than there is memory for, without a commit: one spare chain more. */
  method Spare(buf: EvBuffer)
    requires buf.Valid() && !buf.freezeEnd && buf.chains != []
    modifies buf, Nodes(buf.chains)
    ensures buf.Valid() && !buf.freezeEnd && buf.Contents() == old(buf.Contents()) && buf.lwd == old(buf.lwd) && buf.Grown()
    ensures |buf.chains| == |old(buf.chains)| + 1 && buf.chunks == old(buf.chunks) + [[]]
    ensures buf.last != null && buf.last.SpaceLen() > 0
  {
    var total, count := Memories(buf);
    ghost var chains := buf.chains;
    var _, vecs := ReserveSpace(buf, total + 1, count + 1);
    SpareIsUsed(buf, vecs, chains);
  }

  lemma SpareIsUsed(buf: EvBuffer, vecs: seq<IoVec>, chains: seq<Chain>)
    requires buf.Valid() && FromStart(buf, vecs) && TotalLen(vecs) > SumMemory(chains)
    requires forall j :: 0 <= j < |vecs| ==> vecs[j].len > 0
    requires buf.chains == chains || (|buf.chains| == |chains| + 1 && buf.chains[..|chains|] == chains)
    ensures |buf.chains| == |chains| + 1 && buf.last == buf.chains[|chains|] && buf.last.SpaceLen() > 0
  {
    hide SumMemory;
    NothingYet();
    var k, v := Start(buf), vecs[|vecs| - 1];
    assert IsSpace(buf.chains[k + (|vecs| - 1)], v);
    if k + |vecs| <= |chains| {
      TotalWithin(buf, vecs, k, chains);
    }
  }

  lemma TotalWithin(buf: EvBuffer, vecs: seq<IoVec>, k: nat, chains: seq<Chain>)
    requires buf.Valid() && Fits(buf, vecs, k) && k + |vecs| <= |chains| <= |buf.chains| && buf.chains[..|chains|] == chains
    ensures TotalLen(vecs) <= SumMemory(chains)
  {
    TotalFits(buf, vecs, k);
    SumGrows(chains, k + |vecs|);
    assert buf.chains[..k + |vecs|] == chains[..k + |vecs|];
  }

  /** evbuffer_reserve_space twice, without a commit: a byte, and two spare chains behind it. */
  method TwoSpares() returns (buf: EvBuffer)
    ensures fresh(buf) && buf.Valid() && !buf.freezeEnd && buf.Contents() == [7]
    ensures |buf.chains| == 3 && buf.lwd == 0 && buf.chunks == [[7], [], []] && buf.last != null && buf.last.SpaceLen() > 0
    ensures forall c :: c in buf.chains ==> fresh(c) && fresh(c.buffer)
  {
    buf := OneByte();
    Spare(buf);
    Spare(buf);
  }

  method OneByte() returns (buf: EvBuffer)
    ensures fresh(buf) && buf.Valid() && !buf.freezeEnd && buf.Contents() == [7]
    ensures |buf.chains| == 1 && buf.lwd == 0 && buf.chunks == [[7]]
    ensures forall c :: c in buf.chains ==> fresh(c) && fresh(c.buffer)
  {
    buf := new EvBuffer();
    var _, _ := buf.Add([7]);
    OneChunk7(buf);
  }

  lemma OneChunk7(buf: EvBuffer)
    requires buf.Valid() && buf.Tight() && buf.Contents() == [7]
    ensures |buf.chains| == 1 && buf.lwd == 0 && buf.chunks == [[7]]
  {
    var chunks := buf.chunks;
    buf.HasData();
    assert chunks == [chunks[0]] + chunks[1..];
    FlattenConcat([chunks[0]], chunks[1..]);
    FlattenOne(chunks[0]);
    NonEmptyHasBytes(chunks[1..]);
  }

  /** evbuffer_add with a spare chain that has room: the byte is there, and last_with_datap is wrong. */
  method AddBehindSpare() returns (buf: EvBuffer)
    ensures buf.Linked() && buf.Contents() == [7, 8] && !buf.Pointed()
  {
    buf := OneByte();
    Spare(buf);
    assert !buf.AddPoints(1) && [7] + [8] == [7, 8];
    var _, _ := buf.Add([8]);
  }

  /** evbuffer_add with two spare chains, the last of which is too small: the assertion fails. */
  method AddAmongSpares() returns (buf: EvBuffer, done: bool)
    ensures !done
  {
    buf := TwoSpares();
    var data := seq(buf.last.buffer.Length + 1, _ => 8);
    assert buf.AddAsserts(|data|) by {
      LastLength(buf);
      assert buf.chunks[1] == [];
    }
    var result;
    result, done := buf.Add(data);
  }

  lemma LastLength(buf: EvBuffer)
    requires buf.Valid() && buf.last != null
    ensures buf.last.SpaceLen() <= buf.last.buffer.Length
  {
  }

  /** With the assertion compiled out, the bytes in the filled spare chain are lost. */
  lemma SpareIsLost()
    ensures Flatten([[7], [], [8]][..1] + [[9]]) != Flatten([[7], [], [8]]) + [9]
  {
    InsertLoses([[7], [], [8]], 1, [9]);
  }

  /** evbuffer_commit_space at the end of the second spare chain: the byte is there, and last_with_datap is wrong. */
  method CommitBehindSpare() returns (buf: EvBuffer, result: int)
    ensures result == 0 && buf.Linked() && |buf.Contents()| == 2 && !buf.Pointed()
  {
    buf := TwoSpares();
    var last := buf.last;
    var vec := IoVec(last.buffer, last.misalign + last.off, 1);
    assert AtEnd(buf, [vec]) && vec.len <= last.SpaceLen();
    SpacePiece(last, vec);
    ghost var piece := Piece(vec);
    WrittenMore([], vec);
    NothingYet();
    assert [] + [vec] == [vec];
    result := CommitSpace(buf, [vec]);
    assert buf.chunks[1] == [] && buf.chunks[2] == piece;
  }
}
