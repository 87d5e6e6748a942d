/** Reserving space at the end of an evbuffer, and committing what has been written there. */
module EvReserve {
  import opened Bytes
  import opened EvBuffers

  /** struct evbuffer_iovec: memory from base[start] on. */
  datatype IoVec = IoVec(base: array<Byte>, start: nat, len: nat)

  /** The free bytes behind the data of the chains. */
  ghost function SumSpace(cs: seq<Chain>): int
    reads Nodes(cs)`misalign, Nodes(cs)`off
  {
    if cs == [] then 0 else SumSpace(cs[..|cs| - 1]) + cs[|cs| - 1].SpaceLen()
  }

  /** The first chain with space, from the last one with data on. */
  ghost function Start(buf: EvBuffer): nat
    requires buf.lwd < |buf.chains|
    reads buf`lwd, buf`chains, Nodes(buf.chains)`misalign, Nodes(buf.chains)`off
  {
    if buf.chains[buf.lwd].SpaceLen() == 0 then buf.lwd + 1 else buf.lwd
  }

  /** An empty first chain counts as one with space. */
  ghost predicate Clean(buf: EvBuffer)
    requires buf.lwd < |buf.chains| == |buf.chunks|
    reads buf`lwd, buf`chains, buf`chunks, Nodes(buf.chains)`misalign, Nodes(buf.chains)`off
  {
    buf.chunks[buf.lwd] == [] ==> Start(buf) == buf.lwd
  }

  /** chain->misalign = 0 where there is no data. */
  method Realign(buf: EvBuffer, chain: Chain, ghost k: nat)
    requires buf.Valid() && k < |buf.chains| && chain == buf.chains[k] && buf.chunks[k] == []
    modifies chain`misalign
    ensures buf.Valid() && chain.misalign == 0 && chain.SpaceLen() == chain.buffer.Length > 0
  {
    assert chain.Holds(buf.chunks[k]);
    chain.misalign := 0;
    assert chain.Holds(buf.chunks[k]);
  }

  lemma SumSpaceKept(cs: seq<Chain>, k: nat, j: nat)
    requires j <= k < |cs|
    ensures SumSpace(cs[j..k + 1]) == SumSpace(cs[j..k]) + cs[k].SpaceLen()
  {
    assert cs[j..k + 1][..k - j] == cs[j..k];
  }

  /** One turn of the loop of _evbuffer_expand_fast: an empty chain is realigned. */
  method Visit(buf: EvBuffer, chain: Chain, ghost k: nat) returns (space: nat)
    requires buf.Valid() && k < |buf.chains| && chain == buf.chains[k]
    modifies chain`misalign
    ensures buf.Valid() && space == chain.SpaceLen() && (buf.chunks[k] == [] ==> space > 0)
    ensures buf.chunks[k] != [] ==> chain.misalign == old(chain.misalign)
  {
    InList(buf, k);
    if chain.off == 0 {
      Realign(buf, chain, k);
    }
    space := chain.SpaceLen();
  }

  twostate lemma SameSum(cs: seq<Chain>)
    requires forall i :: 0 <= i < |cs| ==> cs[i].SpaceLen() == old(cs[i].SpaceLen())
    ensures SumSpace(cs) == old(SumSpace(cs))
  {
    if cs != [] {
      var front := cs[..|cs| - 1];
      assert forall i :: 0 <= i < |front| ==> front[i] == cs[i];
      SameSum(front);
    }
  }

  ghost predicate Roomy(buf: EvBuffer, s: nat, k: nat)
    reads buf`chains, Nodes(buf.chains)`misalign, Nodes(buf.chains)`off
  {
    forall j :: s <= j < k && j < |buf.chains| ==> buf.chains[j].SpaceLen() > 0
  }

  /** The space from the first chain with space to chain k. */
  ghost predicate Scanned(buf: EvBuffer, k: nat, avail: int, used: nat)
    requires buf.lwd < |buf.chains|
    reads buf`lwd, buf`chains, Nodes(buf.chains)`misalign, Nodes(buf.chains)`off
  {
    && Start(buf) <= k <= |buf.chains| && used == k - Start(buf) && avail == SumSpace(buf.chains[Start(buf)..k])
    && Roomy(buf, Start(buf), k)
  }

  /** A chain behind the last one with data is visited. */
  method VisitNext(buf: EvBuffer, chain: Chain, ghost k: nat, ghost avail: int, ghost used: nat) returns (space: nat)
    requires buf.Valid() && buf.lwd < k < |buf.chains| && chain == buf.chains[k] && Scanned(buf, k, avail, used)
    modifies chain`misalign
    ensures buf.Valid() && Start(buf) == old(Start(buf)) && Scanned(buf, k + 1, avail + space, used + 1)
  {
    InList(buf, k);
    space := Visit(buf, chain, k);
    ghost var cs := buf.chains[Start(buf)..k];
    assert forall i :: 0 <= i < |cs| ==> cs[i] == buf.chains[Start(buf) + i];
    SameSum(cs);
    SumSpaceKept(buf.chains, k, Start(buf));
  }

  lemma ScannedFirst(buf: EvBuffer, space: int)
    requires buf.lwd < |buf.chains| && space == buf.chains[buf.lwd].SpaceLen() >= 0
    ensures Scanned(buf, buf.lwd + 1, space, if space > 0 then 1 else 0)
    ensures space > 0 ==> Start(buf) == buf.lwd
  {
    if space > 0 {
      SumSpaceKept(buf.chains, buf.lwd, buf.lwd);
      assert buf.chains[buf.lwd..buf.lwd] == [];
    } else {
      assert buf.chains[buf.lwd + 1..buf.lwd + 1] == [];
    }
  }

  /** The loop of _evbuffer_expand_fast: up to n chains with space, and the space in them. */
  method ScanSpace(buf: EvBuffer, datlen: nat, n: nat) returns (avail: int, used: nat, ghost k: nat)
    requires buf.Valid() && buf.chains != [] && n >= 2
    modifies Nodes(buf.chains)`misalign
    ensures buf.Valid() && buf.lwd < k && buf.lwd < |buf.chains| && Scanned(buf, k, avail, used) && used <= n
    ensures avail >= datlen || used == n || k == |buf.chains|
    ensures buf.chunks[buf.lwd] == [] ==> Start(buf) == buf.lwd
  {
    hide Scanned, EvBuffer.Valid, Start;
    HasChains(buf);
    k := buf.lwd;
    InList(buf, k);
    var chain := buf.Deref(buf.lastWithDatap);
    var space := Visit(buf, chain, k);
    ScannedFirst(buf, space);
    avail, used := space, if space > 0 then 1 else 0;
    InList(buf, k);
    chain, k := chain.next, k + 1;
    while chain != null && avail < datlen && used < n
      invariant buf.Valid() && buf.lwd < k <= |buf.chains| && chain == (if k < |buf.chains| then buf.chains[k] else null)
      invariant Scanned(buf, k, avail, used) && used <= n
      invariant buf.chunks[buf.lwd] == [] ==> Start(buf) == buf.lwd
      decreases |buf.chains| - k
    {
      InList(buf, k);
      space := VisitNext(buf, chain, k, avail, used);
      InList(buf, k);
      avail, used := avail + space, used + 1;
      chain, k := chain.next, k + 1;
    }
  }

  lemma HasChains(buf: EvBuffer)
    requires buf.Valid() && buf.chains != []
    ensures buf.lwd < |buf.chains| == |buf.chunks|
  {
  }

  lemma InList(buf: EvBuffer, k: nat)
    requires buf.Valid() && k < |buf.chains|
    ensures buf.chains[k].Holds(buf.chunks[k]) && buf.chains[k].off == |buf.chunks[k]|
    ensures buf.chains[k].next == if k + 1 < |buf.chains| then buf.chains[k + 1] else null
    ensures buf.chunks[k] != [] ==> k <= buf.lwd
    ensures k == buf.lwd ==> buf.Deref(buf.lastWithDatap) == buf.chains[k]
    ensures forall i, j :: 0 <= i < j < |buf.chains| ==> buf.chains[i] != buf.chains[j]
  {
    assert buf.chains[k].Holds(buf.chunks[k]);
  }

  lemma OneMore(buf: EvBuffer, k: nat, avail: int, used: nat, tmp: Chain, chains: seq<Chain>)
    requires buf.lwd < |chains| && buf.chains == chains + [tmp]
    requires k == |chains| && used == k - Start(buf) && Start(buf) <= k && avail == SumSpace(chains[Start(buf)..])
    requires Roomy(buf, Start(buf), k) && tmp.SpaceLen() > 0
    ensures Scanned(buf, |buf.chains|, avail + tmp.SpaceLen(), used + 1)
  {
    assert buf.chains[Start(buf)..k] == chains[Start(buf)..];
    SumSpaceKept(buf.chains, k, Start(buf));
  }

  /** The chains from slot k on, which are empty, give way to tmp. */
  method LinkTail(buf: EvBuffer, slot: Chain?, tmp: Chain, ghost k: nat)
    requires buf.Valid() && buf.chains != [] && buf.IsSlot(slot, k) && (buf.lwd < k || k == buf.lwd == 0)
    requires forall i :: k <= i < |buf.chunks| ==> buf.chunks[i] == []
    requires tmp.Holds([]) && tmp.next == null && New(tmp, buf.chains)
    modifies buf`first, buf`last, buf`chains, buf`chunks, Nodes(buf.chains)`next
    ensures buf.Valid() && buf.Contents() == old(buf.Contents())
    ensures buf.chains == old(buf.chains)[..k] + [tmp] && buf.chunks == old(buf.chunks)[..k] + [[]]
  {
    DropEmptyTail(buf.chunks, k);
    FlattenConcat(buf.chunks[..k], [[]]);
    FlattenOne([]);
    buf.last := tmp;
    buf.SetTail(slot, k, tmp, []);
  }

  /** A new chain without data goes behind the last one. */
  method AppendChain(buf: EvBuffer, tmp: Chain, ghost avail: int, ghost used: nat)
    requires buf.Valid() && buf.chains != [] && buf.lwd < |buf.chains| && Scanned(buf, |buf.chains|, avail, used)
    requires tmp.Holds([]) && tmp.next == null && tmp.SpaceLen() > 0 && New(tmp, buf.chains)
    modifies buf`first, buf`last, buf`chains, buf`chunks, Nodes(buf.chains)`next
    ensures buf.Valid() && buf.Contents() == old(buf.Contents())
    ensures buf.chains == old(buf.chains) + [tmp] && Scanned(buf, |buf.chains|, avail + tmp.SpaceLen(), used + 1)
    ensures Start(buf) == old(Start(buf)) && buf.chunks == old(buf.chunks) + [[]]
  {
    hide EvBuffer.Valid;
    ghost var chains, from := buf.chains, Start(buf);
    ghost var rest := chains[from..];
    LastIsSlot(buf);
    ScannedAll(buf, avail, used);
    assert forall i :: 0 <= i < |rest| ==> rest[i] == chains[from + i];
    hide Scanned, SumSpace, Roomy;
    LinkTail(buf, buf.last, tmp, |chains|);
    assert buf.chains[buf.lwd] == chains[buf.lwd] && Start(buf) == from;
    SameSum(rest);
    StillRoomy(buf, from, |chains|, chains);
    OneMore(buf, |chains|, avail, used, tmp, chains);
  }

  lemma LastIsSlot(buf: EvBuffer)
    requires buf.Valid() && buf.chains != []
    ensures buf.IsSlot(buf.last, |buf.chains|) && |buf.chunks| == |buf.chains|
    ensures buf.chains[..|buf.chains|] == buf.chains && buf.chunks[..|buf.chains|] == buf.chunks
  {
  }

  lemma ScannedAll(buf: EvBuffer, avail: int, used: nat)
    requires buf.lwd < |buf.chains| && Scanned(buf, |buf.chains|, avail, used)
    ensures Start(buf) <= |buf.chains| && used == |buf.chains| - Start(buf) && avail == SumSpace(buf.chains[Start(buf)..])
    ensures forall j :: Start(buf) <= j < |buf.chains| ==> buf.chains[j].SpaceLen() > 0
  {
    assert buf.chains[Start(buf)..|buf.chains|] == buf.chains[Start(buf)..];
  }

  lemma StillRoomy(buf: EvBuffer, s: nat, k: nat, chains: seq<Chain>)
    requires k <= |chains| && |chains| <= |buf.chains| && buf.chains[..|chains|] == chains
    requires forall j :: s <= j < k ==> chains[j].SpaceLen() > 0
    ensures Roomy(buf, s, k)
  {
  }

  method AppendNew(buf: EvBuffer, size: nat, ghost avail: int, ghost used: nat)
      returns (ghost avail': int, ghost used': nat, ghost k: nat)
    requires buf.Valid() && buf.chains != [] && buf.lwd < |buf.chains| && Scanned(buf, |buf.chains|, avail, used)
    modifies buf`first, buf`last, buf`chains, buf`chunks, Nodes(buf.chains)`next
    ensures buf.Valid() && buf.Contents() == old(buf.Contents()) && buf.Grown() && buf.lwd < |buf.chains|
    ensures Scanned(buf, k, avail', used') && avail' >= avail + size && used' == used + 1
    ensures old(Clean(buf)) ==> Clean(buf)
    ensures buf.last != null && buf.chains == old(buf.chains) + [buf.last] && buf.chunks == old(buf.chunks) + [[]]
  {
    var tmp := new Chain(size);
    AppendChain(buf, tmp, avail, used);
    avail', used', k := avail + tmp.SpaceLen(), used + 1, |buf.chains|;
  }

  lemma ScannedTwo(buf: EvBuffer, space: int)
    requires |buf.chains| == buf.lwd + 2 && space == buf.chains[buf.lwd].SpaceLen() >= 0
    requires buf.chains[buf.lwd + 1].SpaceLen() > 0
    ensures Scanned(buf, buf.lwd + 2, space + buf.chains[buf.lwd + 1].SpaceLen(), if space > 0 then 2 else 1)
  {
    ScannedFirst(buf, space);
    SumSpaceKept(buf.chains, buf.lwd + 1, Start(buf));
  }

  /** Every chain gives way to tmp, where none has data. */
  method ReplaceAll(buf: EvBuffer, tmp: Chain)
    requires buf.Valid() && buf.chains != [] && buf.chunks[buf.lwd] == []
    requires tmp.Holds([]) && tmp.misalign == 0 && tmp.next == null && New(tmp, buf.chains)
    modifies buf`first, buf`last, buf`chains, buf`chunks, Nodes(buf.chains)`next
    ensures buf.Valid() && buf.Contents() == old(buf.Contents()) && buf.chains == [tmp] && buf.lwd == 0
    ensures Scanned(buf, 1, tmp.SpaceLen(), 1) && Clean(buf)
  {
    assert buf.lwd == 0;
    LinkTail(buf, null, tmp, 0);
    assert tmp.Holds([]);
    ScannedFirst(buf, tmp.SpaceLen());
  }

  /** The chains behind the one with data give way to tmp. */
  method ReplaceBehind(buf: EvBuffer, chain: Chain, tmp: Chain)
    requires buf.Valid() && buf.chains != [] && buf.lwd < |buf.chains| && chain == buf.chains[buf.lwd]
    requires tmp.Holds([]) && tmp.next == null && tmp.SpaceLen() > 0 && New(tmp, buf.chains)
    modifies buf`first, buf`last, buf`chains, buf`chunks, Nodes(buf.chains)`next
    ensures buf.Valid() && buf.Contents() == old(buf.Contents()) && buf.chains == old(buf.chains)[..buf.lwd + 1] + [tmp]
    ensures Scanned(buf, buf.lwd + 2, chain.SpaceLen() + tmp.SpaceLen(), if chain.SpaceLen() > 0 then 2 else 1)
    ensures old(buf.chunks)[buf.lwd] != [] ==> Clean(buf)
  {
    LinkTail(buf, chain, tmp, buf.lwd + 1);
    assert buf.chains[buf.lwd] == chain && buf.chains[buf.lwd + 1] == tmp;
    InList(buf, buf.lwd);
    ScannedTwo(buf, chain.SpaceLen());
  }

  /** The end of _evbuffer_expand_fast: all empty chains give way to one with the room that is missing. */
  method ReplaceEmpty(buf: EvBuffer, datlen: nat) returns (ghost k: nat, ghost avail: int, ghost used: nat)
    requires buf.Valid() && buf.chains != []
    modifies buf`first, buf`last, buf`chains, buf`chunks, Nodes(buf.chains)`next
    ensures buf.Valid() && buf.Contents() == old(buf.Contents()) && buf.Grown() && buf.lwd < |buf.chains|
    ensures Scanned(buf, k, avail, used) && avail >= datlen && used <= 2 && Clean(buf) && buf.lwd == old(buf.lwd)
  {
    hide Scanned, Clean;
    HasChains(buf);
    InList(buf, buf.lwd);
    var chain := buf.Deref(buf.lastWithDatap);
    var space := if chain.off == 0 then 0 else chain.SpaceLen();
    var tmp := new Chain(if datlen > space then datlen - space else 0);
    if chain.off == 0 {
      ReplaceAll(buf, tmp);
      k, avail, used := 1, tmp.SpaceLen(), 1;
    } else {
      ReplaceBehind(buf, chain, tmp);
      k, avail, used := buf.lwd + 2, space + tmp.SpaceLen(), if space > 0 then 2 else 1;
    }
  }

  /** Where n is enough for all the chains with space and one more, at most a spare empty chain is appended. */
  ghost predicate OneSpareMore(before: seq<Chain>, chunks: seq<seq<Byte>>, lwd: nat, after: seq<Chain>, chunks': seq<seq<Byte>>, n: nat)
  {
    before != [] && n > |before| - lwd ==>
      || (after == before && chunks' == chunks)
      || (|after| == |before| + 1 && after[..|before|] == before && chunks' == chunks + [[]])
  }

  /** _evbuffer_expand_fast: room for datlen bytes in at most n chains; the contents stay. */
  method ExpandFast(buf: EvBuffer, datlen: nat, n: nat) returns (ghost k: nat, ghost avail: int, ghost used: nat)
    requires buf.Valid() && n >= 2
    modifies buf, Nodes(buf.chains)
    ensures buf.Valid() && buf.Contents() == old(buf.Contents()) && buf.Grown() && buf.freezeEnd == old(buf.freezeEnd)
    ensures buf.lwd < |buf.chains| && Scanned(buf, k, avail, used) && avail >= datlen && used <= n && Clean(buf)
    ensures buf.lwd == old(buf.lwd) && OneSpareMore(old(buf.chains), old(buf.chunks), old(buf.lwd), buf.chains, buf.chunks, n)
  {
    if buf.last == null {
      var chain := new Chain(datlen);
      buf.InsertValid(chain, []);
      ScannedFirst(buf, chain.SpaceLen());
      return 1, chain.SpaceLen(), 1;
    }
    var room, count;
    room, count, k := ScanSpace(buf, datlen, n);
    avail, used := room, count;
    if room >= datlen {
      return;
    }
    if count < n {
      avail, used, k := AppendNew(buf, datlen - room, room, count);
    } else {
      k, avail, used := ReplaceEmpty(buf, datlen);
    }
  }

  ghost function TotalLen(vecs: seq<IoVec>): nat
  {
    if vecs == [] then 0 else TotalLen(vecs[..|vecs| - 1]) + vecs[|vecs| - 1].len
  }

  /** Each vector is the free space, or the beginning of it, of one chain, from chain k on. */
  ghost predicate Fits(buf: EvBuffer, vecs: seq<IoVec>, k: nat)
    reads buf`chains, Nodes(buf.chains)`misalign, Nodes(buf.chains)`off
  {
    FitsFrom(buf, vecs, k, 0)
  }

  /** As Fits, for the vectors from the i-th on. */
  ghost predicate FitsFrom(buf: EvBuffer, vecs: seq<IoVec>, k: nat, i: nat)
    reads buf`chains, Nodes(buf.chains)`misalign, Nodes(buf.chains)`off
  {
    && (i < |vecs| ==> k + |vecs| <= |buf.chains|)
    && forall j :: i <= j < |vecs| ==> IsSpace(buf.chains[k + j], vecs[j])
  }

  predicate IsSpace(chain: Chain, vec: IoVec)
    reads chain`misalign, chain`off
  {
    vec.base == chain.buffer && vec.start == chain.misalign + chain.off && vec.len <= chain.SpaceLen()
  }

  /** Regions of different vectors do not overlap: they are in different memory. */
  lemma Disjoint(buf: EvBuffer, vecs: seq<IoVec>, k: nat, i: nat, j: nat)
    requires buf.Valid() && Fits(buf, vecs, k) && i < j < |vecs|
    ensures vecs[i].base != vecs[j].base
  {
    var a, b := vecs[i], vecs[j];
    assert k + j < |buf.chains| && IsSpace(buf.chains[k + i], a) && IsSpace(buf.chains[k + j], b);
  }

  lemma TotalNone()
    ensures TotalLen([]) == 0
  {
  }

  lemma TotalSnoc(vecs: seq<IoVec>, vec: IoVec)
    ensures TotalLen(vecs + [vec]) == TotalLen(vecs) + vec.len
  {
    assert (vecs + [vec])[..|vecs|] == vecs;
  }

  lemma AtSlot(buf: EvBuffer, slot: Chain?, k: nat)
    requires buf.Valid() && buf.IsSlot(slot, k)
    ensures buf.Deref(slot) == if k < |buf.chains| then buf.chains[k] else null
    ensures k < |buf.chains| ==> buf.chains[k].Holds(buf.chunks[k]) && buf.chains[k].SpaceLen() >= 0
    ensures k < |buf.chains| ==> buf.chains[k].next == if k + 1 < |buf.chains| then buf.chains[k + 1] else null
  {
    if k < |buf.chains| {
      InList(buf, k);
    }
  }

  /** The loop of _evbuffer_read_setup_vecs so far. */
  ghost predicate SetUp(buf: EvBuffer, vecs: seq<IoVec>, k: nat, howmuch: nat, exact: bool)
    reads buf`chains, Nodes(buf.chains)`misalign, Nodes(buf.chains)`off
  {
    && Fits(buf, vecs, k) && k + |vecs| <= |buf.chains| && (exact ==> TotalLen(vecs) <= howmuch)
    && (TotalLen(vecs) < howmuch || !exact ==> TotalLen(vecs) == SumSpace(buf.chains[k..k + |vecs|]))
    && (!exact ==> forall j :: 0 <= j < |vecs| ==> vecs[j].len == buf.chains[k + j].SpaceLen())
  }

  lemma SetUpNone(buf: EvBuffer, k: nat, howmuch: nat, exact: bool)
    requires k <= |buf.chains|
    ensures SetUp(buf, [], k, howmuch, exact)
  {
    assert buf.chains[k..k] == [];
  }

  lemma SetUpMore(buf: EvBuffer, vecs: seq<IoVec>, k: nat, howmuch: nat, exact: bool, vec: IoVec)
    requires SetUp(buf, vecs, k, howmuch, exact) && TotalLen(vecs) < howmuch && k + |vecs| < |buf.chains|
    requires IsSpace(buf.chains[k + |vecs|], vec)
    requires var space := buf.chains[k + |vecs|].SpaceLen();
             vec.len == if space > howmuch - TotalLen(vecs) && exact then howmuch - TotalLen(vecs) else space
    ensures SetUp(buf, vecs + [vec], k, howmuch, exact)
  {
    hide TotalLen, SumSpace, FitsFrom;
    TotalSnoc(vecs, vec);
    SumSpaceKept(buf.chains, k + |vecs|, k);
    FitsMore(buf, vecs, k, vec);
    assert k + |vecs + [vec]| == k + |vecs| + 1;
  }

  lemma FitsMore(buf: EvBuffer, vecs: seq<IoVec>, k: nat, vec: IoVec)
    requires Fits(buf, vecs, k) && k + |vecs| < |buf.chains| && IsSpace(buf.chains[k + |vecs|], vec)
    ensures Fits(buf, vecs + [vec], k)
  {
  }

  lemma ScannedIs(buf: EvBuffer, k: nat, avail: int, used: nat)
    requires buf.lwd < |buf.chains| && Scanned(buf, k, avail, used)
    ensures k == Start(buf) + used <= |buf.chains| && avail == SumSpace(buf.chains[Start(buf)..Start(buf) + used])
    ensures Roomy(buf, Start(buf), k)
  {
  }

  /** _evbuffer_read_setup_vecs, after _evbuffer_expand_fast has found the room. */
  method SetupVecs(buf: EvBuffer, howmuch: nat, n: nat, exact: bool, ghost k: nat, ghost avail: int, ghost used: nat)
      returns (vecs: seq<IoVec>)
    requires buf.Valid() && buf.lwd < |buf.chains| && Scanned(buf, k, avail, used) && avail >= howmuch && used <= n
    ensures |vecs| <= n && Fits(buf, vecs, Start(buf)) && TotalLen(vecs) >= howmuch && (exact ==> TotalLen(vecs) == howmuch)
    ensures !exact ==> forall j :: 0 <= j < |vecs| ==> vecs[j].len == buf.chains[Start(buf) + j].SpaceLen()
    ensures forall j :: 0 <= j < |vecs| ==> vecs[j].len > 0
  {
    ScannedIs(buf, k, avail, used);
    InList(buf, buf.lwd);
    var slot := buf.lastWithDatap;
    if buf.Deref(slot).SpaceLen() == 0 {
      slot := buf.Deref(slot);
    }
    AtSlot(buf, slot, Start(buf));
    vecs := SetupFrom(buf, buf.Deref(slot), howmuch, n, exact, Start(buf), used);
  }

  method SetupFrom(buf: EvBuffer, first: Chain?, howmuch: nat, n: nat, exact: bool, ghost s: nat, ghost used: nat)
      returns (vecs: seq<IoVec>)
    requires buf.Valid() && s + used <= |buf.chains| && SumSpace(buf.chains[s..s + used]) >= howmuch && used <= n
    requires first == (if s < |buf.chains| then buf.chains[s] else null) && Roomy(buf, s, s + used)
    ensures |vecs| <= n && TotalLen(vecs) >= howmuch && SetUp(buf, vecs, s, howmuch, exact)
    ensures forall j :: 0 <= j < |vecs| ==> vecs[j].len > 0
  {
    hide SetUp, SumSpace, TotalLen, EvBuffer.Valid;
    var chain := first;
    var soFar: nat := 0;
    TotalNone();
    vecs := [];
    SetUpNone(buf, s, howmuch, exact);
    while |vecs| < n && soFar < howmuch
      invariant buf.Valid() && SumSpace(buf.chains[s..s + used]) >= howmuch
      invariant |vecs| <= used && chain == if s + |vecs| < |buf.chains| then buf.chains[s + |vecs|] else null
      invariant soFar == TotalLen(vecs) && SetUp(buf, vecs, s, howmuch, exact)
      invariant forall j :: 0 <= j < |vecs| ==> vecs[j].len > 0
    {
      ghost var i := s + |vecs|;
      SetupLoop(buf, vecs, s, howmuch, exact, used);
      InList(buf, i);
      var space: nat := chain.SpaceLen();
      if space > howmuch - soFar && exact {
        space := howmuch - soFar;
      }
      var vec := IoVec(chain.buffer, chain.misalign + chain.off, space);
      SetUpMore(buf, vecs, s, howmuch, exact, vec);
      TotalSnoc(vecs, vec);
      vecs := vecs + [vec];
      soFar := soFar + space;
      chain := chain.next;
    }
    SetupLoop(buf, vecs, s, howmuch, exact, used);
  }

  /** After as many vectors as chains were scanned there is room enough. */
  lemma SetupLoop(buf: EvBuffer, vecs: seq<IoVec>, k: nat, howmuch: nat, exact: bool, used: nat)
    requires k + used <= |buf.chains| && SumSpace(buf.chains[k..k + used]) >= howmuch && SetUp(buf, vecs, k, howmuch, exact)
    ensures |vecs| == used ==> TotalLen(vecs) >= howmuch
  {
  }

  /** evbuffer_chain_insert_new: an empty chain takes the place of all empty ones. */
  method InsertNew(buf: EvBuffer, datlen: nat) returns (result: Chain)
    requires buf.Valid()
    modifies buf`first, buf`last, buf`lastWithDatap, buf`totalLen, buf`chains, buf`chunks, buf`lwd
    modifies Nodes(buf.chains)`next, Nodes(buf.chains)`off, Nodes(buf.chains)`misalign
    ensures buf.Valid() && buf.Contents() == old(buf.Contents()) && buf.Grown()
    ensures buf.last == result && result.SpaceLen() >= datlen
    ensures buf.lwd < |buf.chains| && result == buf.chains[|buf.chains| - 1]
  {
    result := new Chain(datlen);
    buf.InsertValid(result, []);
  }

  /** The chain at a slot gives way to a longer one with the same bytes. */
  method Resize(buf: EvBuffer, slot: Chain?, chain: Chain, datlen: nat, ghost k: nat) returns (result: Chain)
    requires buf.Valid() && buf.IsSlot(slot, k) && buf.lwd <= k < |buf.chains| && chain == buf.chains[k]
    modifies buf`first, buf`last, buf`chains, (if slot == null then {} else {slot})`next
    ensures buf.Valid() && buf.Contents() == old(buf.Contents()) && fresh(result) && fresh(result.buffer)
    ensures buf.chains == old(buf.chains)[k := result] && buf.lwd == old(buf.lwd)
    ensures result.SpaceLen() >= datlen
  {
    assert chain.Holds(buf.chunks[k]);
    var bytes := chain.Bytes(chain.off, buf.chunks[k]);
    result := NewChainWith(chain.off + datlen, bytes);
    assert result.Holds(bytes);
    buf.Replace(slot, k, chain, result);
  }

  /** Where evbuffer_expand_singlechain starts: the first chain with space, from the last one with data on, or the end. */
  method FirstSpace(buf: EvBuffer) returns (slot: Chain?, ghost k: nat)
    requires buf.Valid()
    ensures buf.IsSlot(slot, k) && buf.lwd <= k <= buf.lwd + 1 && (buf.lwd < |buf.chains| ==> k == Start(buf))
  {
    slot, k := buf.lastWithDatap, buf.lwd;
    AtSlot(buf, slot, k);
    var chain := buf.Deref(slot);
    if chain != null && chain.SpaceLen() == 0 {
      slot, k := chain, k + 1;
    }
  }

  /** The chain that is found: the one behind the first with space, or else that one or the last. */
  ghost predicate Reached(buf: EvBuffer, r: nat, next: bool, lwd: nat, n: nat)
    requires buf.lwd < |buf.chains|
    reads buf`lwd, buf`chains, Nodes(buf.chains)`misalign, Nodes(buf.chains)`off
  {
    if next then r == lwd + 1 && lwd == Start(buf) && |buf.chains| == n else r == Start(buf) || r == |buf.chains| - 1
  }

  lemma NotNext(buf: EvBuffer, datlen: nat, k: nat)
    requires buf.Valid() && buf.lwd <= k <= |buf.chains| && (buf.lwd < |buf.chains| ==> k == Start(buf))
    ensures k == |buf.chains| || buf.chains[k].SpaceLen() >= datlen || buf.chains[k].off == 0 ==> !UsesNext(buf, datlen)
    ensures k < |buf.chains| && buf.chains[k].off > 0 ==> k == buf.lwd && buf.chains[k].SpaceLen() > 0
    ensures |buf.chains| > 0 ==> buf.lwd < |buf.chains|
  {
    if k < |buf.chains| {
      InList(buf, k);
    }
  }

  /** evbuffer_expand_singlechain: one chain with room for datlen bytes; the bytes stay. */
  method ExpandSingle(buf: EvBuffer, datlen: nat) returns (result: Chain, ghost r: nat)
    requires buf.Valid()
    modifies buf, Nodes(buf.chains), Buffers(buf.chains)
    ensures buf.Valid() && buf.Contents() == old(buf.Contents()) && buf.Grown() && buf.freezeEnd == old(buf.freezeEnd)
    ensures r < |buf.chains| && result == buf.chains[r] && result.SpaceLen() >= datlen
    ensures buf.lwd < |buf.chains| && Reached(buf, r, old(UsesNext(buf, datlen)), old(buf.lwd), old(|buf.chains|))
  {
    hide UsesNext, EvBuffer.Linked, EvBuffer.Pointed;
    var slot, k := FirstSpace(buf);
    AtSlot(buf, slot, k);
    NotNext(buf, datlen, k);
    var chain := buf.Deref(slot);
    if chain == null {
      result := InsertNew(buf, datlen);
      r := |buf.chains| - 1;
      return;
    }
    if chain.SpaceLen() >= datlen {
      return chain, k;
    }
    if chain.off == 0 {
      result := InsertNew(buf, datlen);
      r := |buf.chains| - 1;
      return;
    }
    result, r := Widen(buf, slot, chain, datlen, k);
  }

  /** The branch of evbuffer_expand_singlechain that takes an empty chain behind the first one with space. */
  ghost predicate UsesNext(buf: EvBuffer, datlen: nat)
    reads buf`lwd, buf`chains, Nodes(buf.chains)`misalign, Nodes(buf.chains)`off
  {
    && buf.lwd + 1 < |buf.chains| && Skips(buf.chains[buf.lwd], datlen) && buf.chains[buf.lwd + 1].SpaceLen() >= datlen
  }

  /** A chain with too little space that is not worth realigning or resizing. */
  predicate Skips(chain: Chain, datlen: nat)
    reads chain`misalign, chain`off
  {
    && 0 < chain.SpaceLen() < datlen && chain.off > 0 && !chain.ShouldRealign(datlen)
    && (chain.SpaceLen() < chain.buffer.Length / 8 || chain.off > MAX_TO_COPY_IN_EXPAND)
  }

  /** The first chain with space has data, and its space is too small. */
  method Widen(buf: EvBuffer, slot: Chain?, chain: Chain, datlen: nat, ghost k: nat) returns (result: Chain, ghost r: nat)
    requires buf.Valid() && buf.IsSlot(slot, k) && buf.lwd == k < |buf.chains| && chain == buf.chains[k]
    requires 0 < chain.SpaceLen() < datlen && chain.off > 0
    modifies buf`first, buf`last, buf`lastWithDatap, buf`totalLen, buf`chains, buf`chunks, buf`lwd
    modifies Nodes(buf.chains)`next, Nodes(buf.chains)`off, Nodes(buf.chains)`misalign, Buffers(buf.chains)
    ensures buf.Valid() && buf.Contents() == old(buf.Contents()) && buf.Grown()
    ensures r < |buf.chains| && result == buf.chains[r] && result.SpaceLen() >= datlen
    ensures buf.lwd < |buf.chains| && Reached(buf, r, old(UsesNext(buf, datlen)), old(buf.lwd), old(|buf.chains|))
  {
    if chain.ShouldRealign(datlen) {
      buf.AlignAt(chain, k);
      return chain, k;
    }
    AtSlot(buf, slot, k);
    if chain.SpaceLen() < chain.buffer.Length / 8 || chain.off > MAX_TO_COPY_IN_EXPAND {
      if chain.next != null && chain.next.SpaceLen() >= datlen {
        return chain.next, k + 1;
      }
      result := InsertNew(buf, datlen);
      r := |buf.chains| - 1;
    } else {
      result := Resize(buf, slot, chain, datlen, k);
      r := k;
    }
  }

  /** evbuffer_reserve_space with one vector. */
  method ReserveOne(buf: EvBuffer, size: nat) returns (result: int, vecs: seq<IoVec>, ghost r: nat)
    requires buf.Valid()
    modifies buf, Nodes(buf.chains), Buffers(buf.chains)
    ensures buf.Valid() && buf.Contents() == old(buf.Contents()) && buf.Grown() && buf.freezeEnd == old(buf.freezeEnd)
    ensures if buf.freezeEnd then result == -1 && vecs == [] else
              && result == |vecs| == 1 && vecs[0].len >= size && Fits(buf, vecs, r) && buf.lwd < |buf.chains|
              && (Accepts(buf, vecs) <==> !(old(UsesNext(buf, size)) && old(buf.lwd) + 2 < old(|buf.chains|)))
  {
    r := 0;
    if buf.freezeEnd {
      return -1, [], r;
    }
    var chain;
    chain, r := ExpandSingle(buf, size);
    InList(buf, r);
    vecs := [IoVec(chain.buffer, chain.misalign + chain.off, chain.SpaceLen())];
    result := 1;
    OneAccepted(buf, vecs, r);
  }

  /** A vector of its own is accepted just when it is where evbuffer_commit_space looks: first with space, or last. */
  lemma OneAccepted(buf: EvBuffer, vecs: seq<IoVec>, r: nat)
    requires buf.Valid() && r < |buf.chains| && |vecs| == 1 && IsSpace(buf.chains[r], vecs[0])
    ensures buf.lwd < |buf.chains| && (Accepts(buf, vecs) <==> r == Start(buf) || r == |buf.chains| - 1)
  {
    var v := vecs[0];
  }

  /** evbuffer_reserve_space with two vectors or more. */
  method ReserveSpace(buf: EvBuffer, size: nat, n: nat) returns (result: int, vecs: seq<IoVec>)
    requires buf.Valid() && n >= 2
    modifies buf, Nodes(buf.chains)
    ensures buf.Valid() && buf.Contents() == old(buf.Contents()) && buf.Grown() && buf.freezeEnd == old(buf.freezeEnd)
    ensures result == -1 <==> buf.freezeEnd
    ensures result != -1 ==> result == |vecs| <= n && TotalLen(vecs) >= size
                             && buf.lwd < |buf.chains| && Fits(buf, vecs, Start(buf)) && Clean(buf)
                             && forall j :: 0 <= j < |vecs| ==> vecs[j].len > 0
    ensures buf.lwd == old(buf.lwd) && OneSpareMore(old(buf.chains), old(buf.chunks), old(buf.lwd), buf.chains, buf.chunks, n)
  {
    if buf.freezeEnd {
      return -1, [];
    }
    var k, avail, used := ExpandFast(buf, size, n);
    vecs := SetupVecs(buf, size, n, false, k, avail, used);
    result := |vecs|;
  }

  /** What is in the memory of a vector. */
  ghost function Piece(v: IoVec): seq<Byte>
    reads v.base
  {
    if v.start + v.len <= v.base.Length then v.base[v.start..v.start + v.len] else []
  }

  ghost function Written(vecs: seq<IoVec>): seq<Byte>
    reads set v | v in vecs :: v.base
  {
    if vecs == [] then [] else Written(vecs[..|vecs| - 1]) + Piece(vecs[|vecs| - 1])
  }

  /** One vector, at the end of the last chain. */
  ghost predicate AtEnd(buf: EvBuffer, vecs: seq<IoVec>)
    reads buf, buf.chains
  {
    && buf.chains != [] && |vecs| == 1 && vecs[0].base == buf.chains[|buf.chains| - 1].buffer
    && vecs[0].start == buf.chains[|buf.chains| - 1].misalign + buf.chains[|buf.chains| - 1].off
  }

  /** The test of evbuffer_commit_space. */
  ghost predicate Accepts(buf: EvBuffer, vecs: seq<IoVec>)
    reads buf, buf.chains
  {
    || vecs == []
    || (buf.lwd < |buf.chains| &&
        if AtEnd(buf, vecs)
        then vecs[0].len <= buf.chains[|buf.chains| - 1].SpaceLen()
        else Fits(buf, vecs, Start(buf)))
  }

  /** No empty chunk stands before one with data. */
  ghost predicate NoGap(chunks: seq<seq<Byte>>)
  {
    forall i, j :: 0 <= i < j < |chunks| && chunks[j] != [] ==> chunks[i] != []
  }

  /** Bytes added to a chunk with nothing behind it go to the end of the stream. */
  lemma AddedLast(chunks: seq<seq<Byte>>, k: nat, d: seq<Byte>)
    requires k < |chunks| && forall j :: k < j < |chunks| ==> chunks[j] == []
    ensures Flatten(chunks[k := chunks[k] + d]) == Flatten(chunks) + d
  {
    var r := chunks[k := chunks[k] + d];
    DropEmptyTail(chunks, k + 1);
    DropEmptyTail(r, k + 1);
    FlattenLast(chunks[..k + 1]);
    FlattenLast(r[..k + 1]);
    assert r[..k + 1][..k] == chunks[..k + 1][..k];
  }

  /** chain->off += len: what is in the memory already becomes data. */
  method TakeIn(buf: EvBuffer, chain: Chain, vec: IoVec, ghost k: nat)
    requires buf.Shape() && k < |buf.chains| && chain == buf.chains[k] && IsSpace(chain, vec)
    modifies chain`off, buf`chunks
    ensures buf.Shape() && buf.chunks == old(buf.chunks)[k := old(buf.chunks)[k] + Piece(vec)]
    ensures |Piece(vec)| == vec.len && chain.off == old(chain.off) + vec.len
  {
    assert chain.Holds(buf.chunks[k]);
    ghost var m := chain.misalign;
    assert chain.buffer[m..m + chain.off + vec.len] == chain.buffer[m..m + chain.off] + Piece(vec);
    chain.off := chain.off + vec.len;
    buf.chunks := buf.chunks[k := buf.chunks[k] + Piece(vec)];
    assert chain.Holds(buf.chunks[k]);
  }

  /** While vectors are taken in: nothing behind the last chain with data. */
  ghost predicate Committing(buf: EvBuffer)
    reads buf, buf.chains, Buffers(buf.chains)
  {
    && buf.Shape() && buf.IsSlot(buf.lastWithDatap, buf.lwd) && buf.lwd < |buf.chains|
    && buf.last == buf.chains[|buf.chains| - 1]
    && (forall j :: buf.lwd < j < |buf.chunks| ==> buf.chunks[j] == []) && (buf.lwd > 0 ==> buf.chunks[buf.lwd] != [])
  }

  lemma PointedIff(chunks: seq<seq<Byte>>, lwd: nat)
    requires lwd < |chunks| && (forall j :: lwd < j < |chunks| ==> chunks[j] == []) && (lwd > 0 ==> chunks[lwd] != [])
    ensures LastWithData(chunks, lwd) <==> NoGap(chunks)
  {
    if NoGap(chunks) {
      forall i | 0 <= i < lwd ensures chunks[i] != [] {
      }
    }
  }

  /** One turn of the second pass of evbuffer_commit_space. */
  method CommitOne(buf: EvBuffer, slot: Chain?, chain: Chain, vec: IoVec, ghost k: nat)
    requires Committing(buf) && k < |buf.chains| && buf.lwd <= k && buf.IsSlot(slot, k)
    requires chain == buf.chains[k] && IsSpace(chain, vec)
    modifies buf`chunks, buf`lastWithDatap, buf`lwd, chain`off
    ensures Committing(buf) && buf.lwd == (if vec.len > 0 then k else old(buf.lwd)) && buf.IsSlot(slot, k)
    ensures buf.Contents() == old(buf.Contents()) + Piece(vec) && |Piece(vec)| == vec.len
    ensures buf.chunks == old(buf.chunks)[k := old(buf.chunks)[k] + Piece(vec)] && buf.IsSlot(chain, k + 1)
  {
    hide EvBuffer.Shape, Piece;
    SlotHolds(buf, slot, k);
    SpacePiece(chain, vec);
    AddedLast(buf.chunks, k, Piece(vec));
    TakeIn(buf, chain, vec, k);
    if vec.len > 0 {
      PointTo(buf, slot, k);
    }
  }

  /** buf->last_with_datap = chainp. */
  method PointTo(buf: EvBuffer, slot: Chain?, ghost k: nat)
    requires buf.Shape()
    modifies buf`lastWithDatap, buf`lwd
    ensures buf.Shape() && buf.lastWithDatap == slot && buf.lwd == k
  {
    buf.lastWithDatap, buf.lwd := slot, k;
  }

  /** The first pass of evbuffer_commit_space: every pointer and length is in bounds. */
  method CheckFits(buf: EvBuffer, first: Chain?, vecs: seq<IoVec>, ghost k: nat) returns (ok: bool)
    requires buf.Valid() && k <= |buf.chains| && first == if k < |buf.chains| then buf.chains[k] else null
    ensures ok <==> Fits(buf, vecs, k)
  {
    var chain := first;
    for i := 0 to |vecs|
      invariant i == 0 || k + i <= |buf.chains|
      invariant chain == if k + i < |buf.chains| then buf.chains[k + i] else null
      invariant forall j :: 0 <= j < i ==> IsSpace(buf.chains[k + j], vecs[j])
    {
      var vec := vecs[i];
      if chain == null {
        return false;
      }
      InList(buf, k + i);
      if !IsSpace(chain, vec) {
        return false;
      }
      chain := chain.next;
    }
    return true;
  }

  /** What the first i vectors have done to the chunks from the k-th on, and to last_with_datap. */
  ghost predicate Committed(before: seq<seq<Byte>>, lwd: nat, vecs: seq<IoVec>, k: nat, i: nat, after: seq<seq<Byte>>, lwd': nat)
  {
    && |after| == |before| && i <= |vecs| && k + i <= |after|
    && (forall x :: 0 <= x < |after| && !(k <= x < k + i) ==> after[x] == before[x])
    && (forall x :: 0 <= x < i ==> if vecs[x].len > 0 then after[k + x] != [] else after[k + x] == before[k + x])
    && (lwd' == lwd || exists x :: 0 <= x < i && vecs[x].len > 0 && lwd' == k + x)
  }

  /** Vectors that are used in order leave no gap. */
  ghost predicate InOrder(vecs: seq<IoVec>)
  {
    forall i, j :: 0 <= i < j < |vecs| && vecs[j].len > 0 ==> vecs[i].len > 0
  }

  lemma InOrderPoints(before: seq<seq<Byte>>, lwd: nat, vecs: seq<IoVec>, k: nat, after: seq<seq<Byte>>, lwd': nat)
    requires LastWithData(before, lwd) && lwd < |before| && Committed(before, lwd, vecs, k, |vecs|, after, lwd')
    requires k == lwd || k == lwd + 1
    requires forall j :: lwd' < j < |after| ==> after[j] == []
    ensures (before[lwd] == [] ==> k == lwd) && InOrder(vecs) ==> LastWithData(after, lwd')
  {
    if !InOrder(vecs) || (before[lwd] == [] && k != lwd) {
    } else if lwd' != lwd {
      var x :| 0 <= x < |vecs| && vecs[x].len > 0 && lwd' == k + x;
      forall i | 0 <= i < lwd' ensures after[i] != [] {
        if k <= i {
          assert vecs[i - k].len > 0 && after[k + (i - k)] != [];
        }
      }
    } else if k == lwd && vecs != [] {
      assert if vecs[0].len > 0 then after[k + 0] != [] else after[k + 0] == before[k + 0];
    }
  }

  /** One turn of the second pass, with what it leaves for the next one. */
  method CommitTurn(buf: EvBuffer, slot: Chain?, vecs: seq<IoVec>, ghost k: nat, i: nat,
                    ghost before: seq<seq<Byte>>, ghost lwd: nat) returns (chain: Chain)
    requires Committing(buf) && i < |vecs| && FitsFrom(buf, vecs, k, i) && buf.lwd <= k + i && buf.IsSlot(slot, k + i)
    requires Committed(before, lwd, vecs, k, i, buf.chunks, buf.lwd)
    modifies buf`chunks, buf`lastWithDatap, buf`lwd, Nodes(buf.chains)`off
    ensures Committing(buf) && FitsFrom(buf, vecs, k, i + 1) && buf.lwd <= k + i && buf.IsSlot(chain, k + i + 1)
    ensures buf.Contents() == old(buf.Contents()) + old(Piece(vecs[i])) && |old(Piece(vecs[i]))| == vecs[i].len
    ensures Committed(before, lwd, vecs, k, i + 1, buf.chunks, buf.lwd)
  {
    hide Committed, Committing, Piece;
    var vec := vecs[i];
    ghost var d := Piece(vec);
    TurnFits(buf, slot, vecs, k, i);
    chain := buf.Deref(slot);
    CommittedOne(before, lwd, vecs, k, i, buf.chunks, buf.lwd, d);
    CommitOne(buf, slot, chain, vec, k + i);
    assert Piece(vec) == d;
  }

  lemma TurnFits(buf: EvBuffer, slot: Chain?, vecs: seq<IoVec>, k: nat, i: nat)
    requires Committing(buf) && i < |vecs| && FitsFrom(buf, vecs, k, i) && buf.IsSlot(slot, k + i)
    ensures k + i < |buf.chains| == |buf.chunks| && buf.Deref(slot) == buf.chains[k + i]
    ensures IsSpace(buf.chains[k + i], vecs[i]) && |Piece(vecs[i])| == vecs[i].len
    ensures forall j :: i < j < |vecs| ==> vecs[j].base != vecs[i].base
  {
    var vec := vecs[i];
    SlotHolds(buf, slot, k + i);
    SpacePiece(buf.chains[k + i], vec);
    OtherMemory(buf, vecs, k, i);
  }

  lemma OtherMemory(buf: EvBuffer, vecs: seq<IoVec>, k: nat, i: nat)
    requires buf.Shape() && FitsFrom(buf, vecs, k, i)
    ensures forall j :: i < j < |vecs| ==> vecs[j].base != vecs[i].base
  {
    forall j | i < j < |vecs| ensures vecs[j].base != vecs[i].base {
      var a, b := vecs[i], vecs[j];
      assert IsSpace(buf.chains[k + i], a) && IsSpace(buf.chains[k + j], b);
    }
  }

  lemma WrittenSteps(vecs: seq<IoVec>)
    ensures forall i :: 0 <= i < |vecs| ==> Written(vecs[..i + 1]) == Written(vecs[..i]) + Piece(vecs[i])
    ensures Written(vecs[..0]) == [] && vecs[..|vecs|] == vecs
  {
    forall i | 0 <= i < |vecs| ensures Written(vecs[..i + 1]) == Written(vecs[..i]) + Piece(vecs[i]) {
      assert vecs[..i + 1][..i] == vecs[..i];
    }
  }

  lemma CommittedNone(buf: EvBuffer, vecs: seq<IoVec>, k: nat)
    requires Committing(buf) && k <= |buf.chains|
    ensures Committed(buf.chunks, buf.lwd, vecs, k, 0, buf.chunks, buf.lwd)
  {
  }

  lemma CommittedOne(before: seq<seq<Byte>>, lwd: nat, vecs: seq<IoVec>, k: nat, i: nat, now: seq<seq<Byte>>, lwd': nat, d: seq<Byte>)
    requires Committed(before, lwd, vecs, k, i, now, lwd') && i < |vecs| && k + i < |now| && |d| == vecs[i].len
    ensures Committed(before, lwd, vecs, k, i + 1, now[k + i := now[k + i] + d], if |d| > 0 then k + i else lwd')
  {
    var after := now[k + i := now[k + i] + d];
    assert |d| == 0 ==> now[k + i] + d == now[k + i];
    assert now[k + i] == before[k + i];
  }

  /** The second pass. */
  method CommitAll(buf: EvBuffer, first: Chain?, vecs: seq<IoVec>, ghost k: nat) returns (added: nat)
    requires Committing(buf) && Fits(buf, vecs, k) && buf.lwd <= k && buf.IsSlot(first, k)
    modifies buf`chunks, buf`lastWithDatap, buf`lwd, Nodes(buf.chains)`off
    ensures Committing(buf) && buf.Contents() == old(buf.Contents()) + old(Written(vecs)) && added == |old(Written(vecs))|
    ensures Committed(old(buf.chunks), old(buf.lwd), vecs, k, |vecs|, buf.chunks, buf.lwd)
  {
    hide Committing, FitsFrom, Written, Committed;
    CommittedNone(buf, vecs, k);
    var slot := first;
    added := 0;
    WrittenSteps(vecs);
    for i := 0 to |vecs|
      invariant Committing(buf) && buf.lwd <= k + i && buf.IsSlot(slot, k + i) && FitsFrom(buf, vecs, k, i)
      invariant buf.Contents() == old(buf.Contents()) + old(Written(vecs[..i])) && added == |old(Written(vecs[..i]))|
      invariant Committed(old(buf.chunks), old(buf.lwd), vecs, k, i, buf.chunks, buf.lwd)
    {
      slot := CommitTurn(buf, slot, vecs, k, i, old(buf.chunks), old(buf.lwd));
      added := added + vecs[i].len;
    }
  }

  lemma SlotHolds(buf: EvBuffer, slot: Chain?, k: nat)
    requires buf.Shape() && buf.IsSlot(slot, k) && k < |buf.chains|
    ensures buf.Deref(slot) == buf.chains[k] && |buf.chunks| == |buf.chains|
    ensures forall i, j :: 0 <= i < j < |buf.chains| ==> buf.chains[i] != buf.chains[j]
  {
  }

  method TakeInLast(buf: EvBuffer, last: Chain, vec: IoVec, ghost k: nat)
    requires buf.Valid() && k == |buf.chains| - 1 && last == buf.chains[k] && IsSpace(last, vec)
    modifies buf`chunks, buf`totalLen, last`off
    ensures buf.Shape() && buf.chunks == old(buf.chunks)[k := old(buf.chunks)[k] + Piece(vec)]
    ensures buf.Contents() == old(buf.Contents()) + Piece(vec) && buf.totalLen == |buf.Contents()| && |Piece(vec)| == vec.len
  {
    SpacePiece(last, vec);
    AddedLast(buf.chunks, k, Piece(vec));
    TakeIn(buf, last, vec, k);
    buf.totalLen := buf.totalLen + vec.len;
  }

  lemma ShapeLen(buf: EvBuffer)
    requires buf.Valid()
    ensures |buf.chunks| == |buf.chains| && LastWithData(buf.chunks, buf.lwd) && buf.IsSlot(buf.lastWithDatap, buf.lwd)
    ensures buf.chains != [] ==> buf.last == buf.chains[|buf.chains| - 1]
  {
  }

  /** The case of a single vector at the end of the last chain. */
  method CommitLast(buf: EvBuffer, last: Chain, vec: IoVec)
    requires buf.Valid() && buf.lwd < |buf.chains| && last == buf.last && IsSpace(last, vec)
    modifies buf`chunks, buf`lastWithDatap, buf`lwd, buf`totalLen, last`off
    ensures buf.Linked() && buf.Contents() == old(buf.Contents()) + Piece(vec)
    ensures var n := |buf.chains| - 1; buf.chunks == old(buf.chunks)[n := old(buf.chunks)[n] + Piece(vec)]
    ensures buf.Pointed() <==> NoGap(buf.chunks)
    ensures old(Clean(buf)) && old(Start(buf)) == |buf.chains| - 1 ==> buf.Pointed()
  {
    hide EvBuffer.Valid, EvBuffer.Shape, LastWithData;
    ShapeLen(buf);
    ghost var k := |buf.chains| - 1;
    ghost var atStart := Clean(buf) && Start(buf) == k;
    ghost var chunks, lwd := buf.chunks, buf.lwd;
    TakeInLast(buf, last, vec, k);
    if vec.len > 0 {
      buf.AdvanceLastWithData();
    }
    assert buf.Shape() && |chunks| == |buf.chains|;
    LastIff(chunks, lwd, Piece(vec), buf.chunks, buf.lwd);
    if atStart {
      StartHasNoGap(chunks, lwd, Piece(vec));
    }
  }

  lemma StartHasNoGap(chunks: seq<seq<Byte>>, lwd: nat, d: seq<Byte>)
    requires lwd < |chunks| && LastWithData(chunks, lwd) && |chunks| <= lwd + 2
    requires chunks[lwd] == [] ==> |chunks| == lwd + 1
    ensures NoGap(chunks[|chunks| - 1 := chunks[|chunks| - 1] + d])
  {
  }

  lemma SpacePiece(chain: Chain, vec: IoVec)
    requires IsSpace(chain, vec)
    ensures |Piece(vec)| == vec.len
  {
  }

  /** advance_last_with_data finds the chunk that was added to, unless an empty one is in between. */
  lemma LastIff(chunks: seq<seq<Byte>>, lwd: nat, d: seq<Byte>, after: seq<seq<Byte>>, lwd': nat)
    requires chunks != [] && lwd < |chunks| && LastWithData(chunks, lwd)
    requires after == chunks[|chunks| - 1 := chunks[|chunks| - 1] + d] && lwd <= lwd' < |chunks|
    requires if d == [] then lwd' == lwd
             else (forall i :: lwd < i <= lwd' ==> after[i] != []) && (lwd' + 1 < |chunks| ==> after[lwd' + 1] == [])
    ensures LastWithData(after, lwd') <==> NoGap(after)
  {
    var n := |chunks| - 1;
    assert d == [] ==> chunks[n] + d == chunks[n];
    if NoGap(after) && d != [] {
      assert after[n] != [];
      assert lwd' == n;
    }
  }

  lemma PointedHasNoGap(chunks: seq<seq<Byte>>, lwd: nat)
    requires LastWithData(chunks, lwd)
    ensures NoGap(chunks)
  {
  }

  /** evbuffer_commit_space from the first chain with space on. */
  method CommitMany(buf: EvBuffer, vecs: seq<IoVec>) returns (result: int)
    requires buf.Valid() && buf.lwd < |buf.chains|
    modifies buf`chunks, buf`lastWithDatap, buf`lwd, buf`totalLen, Nodes(buf.chains)`off
    ensures result == if old(Fits(buf, vecs, Start(buf))) then 0 else -1
    ensures result == -1 ==> buf.Valid() && buf.chunks == old(buf.chunks) && buf.lwd == old(buf.lwd)
    ensures result == 0 ==> buf.Linked() && buf.Contents() == old(buf.Contents()) + old(Written(vecs))
    ensures result == 0 ==> (buf.Pointed() <==> NoGap(buf.chunks)) && (old(Clean(buf)) && InOrder(vecs) ==> buf.Pointed())
  {
    hide NoGap, InOrder, LastWithData;
    ghost var k, w := Start(buf), Written(vecs);
    InList(buf, buf.lwd);
    var slot := buf.lastWithDatap;
    if buf.Deref(slot).SpaceLen() == 0 {
      slot := buf.Deref(slot);
    }
    AtSlot(buf, slot, k);
    var ok := CheckFits(buf, buf.Deref(slot), vecs, k);
    if !ok {
      return -1;
    }
    assert Written(vecs) == w;
    CommitChecked(buf, slot, vecs, k);
    result := 0;
  }

  /** Pass 2, and the new length. */
  method CommitChecked(buf: EvBuffer, slot: Chain?, vecs: seq<IoVec>, ghost k: nat)
    requires buf.Valid() && buf.lwd < |buf.chains| && Fits(buf, vecs, k) && buf.IsSlot(slot, k) && k == Start(buf)
    modifies buf`chunks, buf`lastWithDatap, buf`lwd, buf`totalLen, Nodes(buf.chains)`off
    ensures buf.Linked() && buf.Contents() == old(buf.Contents()) + old(Written(vecs))
    ensures buf.Pointed() <==> NoGap(buf.chunks)
    ensures old(Clean(buf)) && InOrder(vecs) ==> buf.Pointed()
  {
    hide Committed, Committing, NoGap, InOrder, EvBuffer.Valid, EvBuffer.Linked, LastWithData, FitsFrom;
    MayCommit(buf);
    var added := CommitAll(buf, slot, vecs, k);
    IsCommitted(buf);
    InOrderPoints(old(buf.chunks), old(buf.lwd), vecs, k, buf.chunks, buf.lwd);
    SetLength(buf, buf.totalLen + added);
  }

  method SetLength(buf: EvBuffer, totalLen: nat)
    requires Committing(buf) && totalLen == |buf.Contents()|
    modifies buf`totalLen
    ensures buf.Linked() && buf.Contents() == old(buf.Contents())
  {
    buf.totalLen := totalLen;
  }

  lemma MayCommit(buf: EvBuffer)
    requires buf.Valid() && buf.lwd < |buf.chains|
    ensures Committing(buf) && LastWithData(buf.chunks, buf.lwd) && |buf.chunks| == |buf.chains|
    ensures buf.totalLen == |buf.Contents()|
  {
  }

  lemma IsCommitted(buf: EvBuffer)
    requires Committing(buf)
    ensures LastWithData(buf.chunks, buf.lwd) <==> NoGap(buf.chunks)
    ensures forall j :: buf.lwd < j < |buf.chunks| ==> buf.chunks[j] == []
  {
    PointedIff(buf.chunks, buf.lwd);
  }

  /** The vectors are those of a reservation, or less of them. */
  ghost predicate FromStart(buf: EvBuffer, vecs: seq<IoVec>)
    requires |buf.chains| == |buf.chunks|
    reads buf`lwd, buf`chains, buf`chunks, Nodes(buf.chains)`misalign, Nodes(buf.chains)`off
  {
    buf.lwd < |buf.chains| && Clean(buf) && Fits(buf, vecs, Start(buf))
  }

  /** Some of the vectors of a reservation, or a part of each, pass the test of evbuffer_commit_space. */
  lemma ReservedIsAccepted(buf: EvBuffer, vecs: seq<IoVec>, filled: seq<IoVec>)
    requires buf.Valid() && FromStart(buf, vecs) && |filled| <= |vecs|
    requires forall i :: 0 <= i < |filled| ==> filled[i].base == vecs[i].base && filled[i].start == vecs[i].start
                                               && filled[i].len <= vecs[i].len
    ensures Accepts(buf, filled) && FromStart(buf, filled)
  {
    var k := Start(buf);
    assert Fits(buf, filled, k);
    if filled != [] && filled[0].base == buf.chains[|buf.chains| - 1].buffer {
      var v := vecs[0];
      assert IsSpace(buf.chains[k + 0], v) && k == |buf.chains| - 1;
    }
  }

  /** A caller fills a vector: data and structure stay. */
  method Fill(buf: EvBuffer, vec: IoVec, d: seq<Byte>, ghost chain: Chain, ghost k: nat)
    requires buf.Valid() && k < |buf.chains| && chain == buf.chains[k] && IsSpace(chain, vec) && |d| == vec.len
    modifies vec.base
    ensures buf.Valid() && buf.Contents() == old(buf.Contents()) && Piece(vec) == d
  {
    assert chain.Holds(buf.chunks[k]);
    forall i | 0 <= i < |d| {
      vec.base[vec.start + i] := d[i];
    }
    assert chain.Holds(buf.chunks[k]);
  }

  lemma WrittenFew(vecs: seq<IoVec>)
    requires |vecs| <= 1
    ensures Written(vecs) == if vecs == [] then [] else Piece(vecs[0])
  {
    if vecs != [] {
      assert vecs[..0] == [];
    }
  }

  lemma StartIsLast(buf: EvBuffer, vecs: seq<IoVec>)
    requires buf.Valid() && |vecs| == 1 && buf.last != null && vecs[0].base == buf.last.buffer
    ensures buf.lwd < |buf.chains|
    ensures FromStart(buf, vecs) ==> Start(buf) == |buf.chains| - 1
  {
    if FromStart(buf, vecs) {
      var v := vecs[0];
      assert IsSpace(buf.chains[Start(buf) + 0], v);
    }
  }

  /** evbuffer_commit_space: what has been written is appended, or the test fails and nothing changes. */
  method CommitSpace(buf: EvBuffer, vecs: seq<IoVec>) returns (result: int)
    requires buf.Valid()
    modifies buf, Nodes(buf.chains)
    ensures result == if !buf.freezeEnd && old(Accepts(buf, vecs)) then 0 else -1
    ensures result == -1 ==> buf.Valid() && buf.chunks == old(buf.chunks) && buf.lwd == old(buf.lwd)
    ensures result == 0 ==> buf.Linked() && buf.Contents() == old(buf.Contents()) + old(Written(vecs))
    ensures result == 0 ==> (buf.Pointed() <==> NoGap(buf.chunks))
    ensures result == 0 && old(FromStart(buf, vecs)) && InOrder(vecs) ==> buf.Valid()
    ensures result == 0 && old(AtEnd(buf, vecs)) ==>
              var n := |buf.chains| - 1;
              |old(buf.chunks)| == |buf.chains| && buf.chunks == old(buf.chunks)[n := old(buf.chunks)[n] + old(Piece(vecs[0]))]
    ensures buf.chains == old(buf.chains) && buf.freezeEnd == old(buf.freezeEnd)
  {
    hide Clean, NoGap, Written, Start, FitsFrom, LastWithData;
    if buf.freezeEnd {
      return -1;
    }
    if |vecs| == 0 {
      WrittenFew(vecs);
      PointedHasNoGap(buf.chunks, buf.lwd);
      return 0;
    }
    if buf.last == null {
      return -1;
    }
    if |vecs| == 1 && vecs[0].base == buf.last.buffer && vecs[0].start == buf.last.misalign + buf.last.off {
      if vecs[0].len > buf.last.SpaceLen() {
        return -1;
      }
      WrittenFew(vecs);
      StartIsLast(buf, vecs);
      CommitLast(buf, buf.last, vecs[0]);
      return 0;
    }
    result := CommitMany(buf, vecs);
  }
}
