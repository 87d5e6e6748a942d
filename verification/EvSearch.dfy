/** Searching an evbuffer across its chains, and reading lines from it. */
module EvSearch {
  import opened Wrappers
  import opened Bytes
  import opened EvBuffers

  /** struct evbuffer_ptr. */
  datatype Ptr = Ptr(pos: int, chain: Chain?, posInChain: nat)

  /** The pointer is in chain k, or behind the last chain, and its pos counts the bytes before it. */
  ghost predicate Points(buf: EvBuffer, p: Ptr, k: nat)
    reads buf, buf.chains, Buffers(buf.chains)
  {
    && buf.Linked() && k <= |buf.chains|
    && p.chain == (if k < |buf.chains| then buf.chains[k] else null)
    && (if k < |buf.chains| then p.posInChain <= |buf.chunks[k]| else p.posInChain == 0)
    && p.pos == |Flatten(buf.chunks[..k])| + p.posInChain
  }

  /** Bytes i to i + n of chunk k in the stream. */
  lemma SliceAt(chunks: seq<seq<Byte>>, k: nat, i: nat, n: nat)
    requires k < |chunks| && i + n <= |chunks[k]|
    ensures var at := |Flatten(chunks[..k])| + i;
            at + n <= |Flatten(chunks)| && Flatten(chunks)[at..at + n] == chunks[k][i..i + n]
    ensures Flatten(chunks[..k + 1]) == Flatten(chunks[..k]) + chunks[k]
  {
    FlattenAt(chunks, k);
    Middle(Flatten(chunks[..k]), chunks[k], Flatten(chunks[k + 1..]), i, n);
    FlattenLast(chunks[..k + 1]);
    assert chunks[..k + 1][..k] == chunks[..k];
  }

  lemma Middle(a: seq<Byte>, b: seq<Byte>, c: seq<Byte>, i: nat, n: nat)
    requires i + n <= |b|
    ensures (a + b + c)[|a| + i..|a| + i + n] == b[i..i + n]
  {
    var s := (a + b + c)[|a| + i..|a| + i + n];
    assert forall x :: 0 <= x < n ==> s[x] == b[i..i + n][x];
  }

  lemma ByteAt(chunks: seq<seq<Byte>>, k: nat, i: nat)
    requires k < |chunks| && i < |chunks[k]|
    ensures var at := |Flatten(chunks[..k])| + i; at < |Flatten(chunks)| && Flatten(chunks)[at] == chunks[k][i]
  {
    FlattenAt(chunks, k);
  }

  lemma PointInside(buf: EvBuffer, p: Ptr, k: nat)
    requires Points(buf, p, k)
    ensures 0 <= p.pos <= |buf.Contents()|
    ensures k < |buf.chains| ==> buf.chains[k].Holds(buf.chunks[k])
    ensures k == |buf.chains| ==> p.pos == |buf.Contents()|
  {
    if k < |buf.chains| {
      SliceAt(buf.chunks, k, p.posInChain, 0);
    } else {
      assert buf.chunks[..k] == buf.chunks;
    }
  }

  /** The pointer to the next chain, where one chain is used up. */
  lemma NextChain(buf: EvBuffer, p: Ptr, k: nat)
    requires Points(buf, p, k) && k < |buf.chains|
    ensures Points(buf, Ptr(p.pos + |buf.chunks[k]| - p.posInChain, buf.chains[k].next, 0), k + 1)
  {
    SliceAt(buf.chunks, k, 0, 0);
    assert buf.chains[k].Holds(buf.chunks[k]);
  }

  /** memchr in the data of a chain, from i on; the length of the data if there is none. */
  method FindByte(chain: Chain, i: nat, c: Byte, ghost d: seq<Byte>) returns (j: nat)
    requires chain.Holds(d) && i <= |d|
    ensures i <= j <= |d| && (j < |d| ==> d[j] == c) && forall x :: i <= x < j ==> d[x] != c
  {
    j := i;
    while j < chain.off && chain.buffer[chain.misalign + j] != c
      invariant i <= j <= |d| && forall x :: i <= x < j ==> d[x] != c
    {
      j := j + 1;
    }
  }

  /** No byte from position a to position b of the stream is in the set. */
  ghost predicate NoneOf(s: seq<Byte>, a: int, b: int, cs: set<Byte>)
  {
    0 <= a && b <= |s| && forall x :: a <= x < b ==> s[x] !in cs
  }

  lemma NoneInChunk(chunks: seq<seq<Byte>>, k: nat, i: nat, j: nat, a: int, cs: set<Byte>)
    requires k < |chunks| && i <= j <= |chunks[k]| && forall x :: i <= x < j ==> chunks[k][x] !in cs
    requires NoneOf(Flatten(chunks), a, |Flatten(chunks[..k])| + i, cs)
    ensures NoneOf(Flatten(chunks), a, |Flatten(chunks[..k])| + j, cs)
  {
    SliceAt(chunks, k, i, j - i);
    var base := |Flatten(chunks[..k])|;
    forall x | base + i <= x < base + j ensures Flatten(chunks)[x] !in cs {
      ByteAt(chunks, k, x - base);
    }
  }

  /** evbuffer_strchr. */
  method Strchr(buf: EvBuffer, start: Ptr, c: Byte, ghost k0: nat) returns (r: int, it: Ptr, ghost k: nat)
    requires Points(buf, start, k0)
    ensures r == -1 ==> NoneOf(buf.Contents(), start.pos, |buf.Contents()|, {c})
    ensures r != -1 ==> r == it.pos && start.pos <= r < |buf.Contents()| && buf.Contents()[r] == c
                        && NoneOf(buf.Contents(), start.pos, r, {c}) && Points(buf, it, k) && k < |buf.chains|
                        && it.posInChain < |buf.chunks[k]|
  {
    it, k := start, k0;
    var chain, i := start.chain, start.posInChain;
    PointInside(buf, start, k);
    while chain != null
      invariant Points(buf, Ptr(it.pos, chain, i), k) && start.pos <= it.pos
      invariant NoneOf(buf.Contents(), start.pos, it.pos, {c})
      decreases |buf.chains| - k
    {
      PointInside(buf, Ptr(it.pos, chain, i), k);
      var j := FindByte(chain, i, c, buf.chunks[k]);
      NoneInChunk(buf.chunks, k, i, j, start.pos, {c});
      if j < chain.off {
        ByteAt(buf.chunks, k, j);
        it := Ptr(it.pos + j - i, chain, j);
        return it.pos, it, k;
      }
      NextChain(buf, Ptr(it.pos, chain, i), k);
      it := it.(pos := it.pos + chain.off - i);
      chain, i, k := chain.next, 0, k + 1;
    }
    PointInside(buf, Ptr(it.pos, chain, i), k);
    r := -1;
  }

  const CR: Byte := 13
  const LF: Byte := 10
  const CHUNK_SZ := 128

  /** find_eol_char: two memchrs over 128 bytes at a time; the length of the data if there is no end of line. */
  method FindEolChar(chain: Chain, i: nat, ghost d: seq<Byte>) returns (j: nat)
    requires chain.Holds(d) && i <= |d|
    ensures i <= j <= |d| && (j < |d| ==> d[j] in {CR, LF}) && forall x :: i <= x < j ==> d[x] !in {CR, LF}
  {
    j := i;
    while j < chain.off
      invariant i <= j && (j <= |d| || |d| <= j) && forall x :: i <= x < j && x < |d| ==> d[x] !in {CR, LF}
      decreases chain.off - j
    {
      var chunk := if j + CHUNK_SZ < chain.off then CHUNK_SZ else chain.off - j;
      var cr := Memchr(chain, j, chunk, CR, d);
      var lf := Memchr(chain, j, chunk, LF, d);
      if cr < chunk {
        return if lf < cr then j + lf else j + cr;
      } else if lf < chunk {
        return j + lf;
      }
      j := j + CHUNK_SZ;
    }
    j := chain.off;
  }

  /** memchr in n bytes from i on; n if there is none. */
  method Memchr(chain: Chain, i: nat, n: nat, c: Byte, ghost d: seq<Byte>) returns (j: nat)
    requires chain.Holds(d) && i + n <= |d|
    ensures j <= n && (j < n ==> d[i + j] == c) && forall x :: i <= x < i + j ==> d[x] != c
  {
    j := 0;
    while j < n && chain.buffer[chain.misalign + i + j] != c
      invariant j <= n && forall x :: i <= x < i + j ==> d[x] != c
    {
      j := j + 1;
    }
  }

  /** evbuffer_find_eol_char. */
  method FindEol(buf: EvBuffer, start: Ptr, ghost k0: nat) returns (r: int, it: Ptr, ghost k: nat)
    requires Points(buf, start, k0)
    ensures r == -1 ==> NoneOf(buf.Contents(), start.pos, |buf.Contents()|, {CR, LF})
    ensures r != -1 ==> r == it.pos && start.pos <= r < |buf.Contents()| && buf.Contents()[r] in {CR, LF}
                        && NoneOf(buf.Contents(), start.pos, r, {CR, LF}) && Points(buf, it, k) && k < |buf.chains|
                        && it.posInChain < |buf.chunks[k]| && buf.chunks[k][it.posInChain] == buf.Contents()[r]
  {
    it, k := start, k0;
    var chain, i := start.chain, start.posInChain;
    PointInside(buf, start, k);
    while chain != null
      invariant Points(buf, Ptr(it.pos, chain, i), k) && start.pos <= it.pos
      invariant NoneOf(buf.Contents(), start.pos, it.pos, {CR, LF})
      decreases |buf.chains| - k
    {
      PointInside(buf, Ptr(it.pos, chain, i), k);
      var j := FindEolChar(chain, i, buf.chunks[k]);
      NoneInChunk(buf.chunks, k, i, j, start.pos, {CR, LF});
      if j < chain.off {
        ByteAt(buf.chunks, k, j);
        it := Ptr(it.pos + j - i, chain, j);
        return it.pos, it, k;
      }
      NextChain(buf, Ptr(it.pos, chain, i), k);
      it := it.(pos := it.pos + chain.off - i);
      chain, i, k := chain.next, 0, k + 1;
    }
    PointInside(buf, Ptr(it.pos, chain, i), k);
    r := -1;
  }

  /** The first n bytes of mem are in the stream at position at. */
  ghost predicate Matches(s: seq<Byte>, at: int, mem: seq<Byte>, n: nat)
  {
    0 <= at && at + n <= |s| && n <= |mem| && s[at..at + n] == mem[..n]
  }

  lemma MatchMore(chunks: seq<seq<Byte>>, k: nat, i: nat, n: nat, at: nat, mem: seq<Byte>, done: nat)
    requires k < |chunks| && i + n <= |chunks[k]| && done + n <= |mem| && at + done == |Flatten(chunks[..k])| + i
    requires Matches(Flatten(chunks), at, mem, done) && at + |mem| <= |Flatten(chunks)|
    ensures chunks[k][i..i + n] == mem[done..done + n] <==> Matches(Flatten(chunks), at, mem, done + n)
    ensures !Matches(Flatten(chunks), at, mem, done + n) ==> !Matches(Flatten(chunks), at, mem, |mem|)
  {
    hide Flatten;
    var s := Flatten(chunks);
    SliceAt(chunks, k, i, n);
    SameSoFar(s[at..at + |mem|], mem, done, n);
    Inner(s, at, |mem|, 0, done);
    Inner(s, at, |mem|, 0, done + n);
    Inner(s, at, |mem|, done, done + n);
    assert mem[..|mem|] == mem;
  }

  lemma Inner(s: seq<Byte>, at: nat, n: nat, i: nat, j: nat)
    requires i <= j <= n && at + n <= |s|
    ensures s[at..at + n][i..j] == s[at + i..at + j]
  {
    var part := s[at..at + n];
    assert |part[i..j]| == j - i == |s[at + i..at + j]|;
    assert forall x :: 0 <= x < j - i ==> part[i..j][x] == s[at + i..at + j][x];
  }

  lemma SameSoFar(s: seq<Byte>, t: seq<Byte>, done: nat, n: nat)
    requires |s| == |t| && done + n <= |t| && s[0..done] == t[..done]
    ensures s[0..done + n] == t[..done + n] <==> s[done..done + n] == t[done..done + n]
    ensures s == t ==> s[0..done + n] == t[..done + n]
  {
    assert s[0..done + n] == s[0..done] + s[done..done + n];
    assert t[..done + n] == t[..done] + t[done..done + n];
  }

  /** The sign of memcmp: the first byte that differs decides. */
  function Memcmp(a: seq<Byte>, b: seq<Byte>): (r: int)
    requires |a| == |b|
    ensures r == 0 <==> a == b
  {
    if a == [] then 0
    else if a[0] < b[0] then -1
    else if a[0] > b[0] then 1
    else
      assert a == [a[0]] + a[1..] && b == [b[0]] + b[1..];
      Memcmp(a[1..], b[1..])
  }

  /** What comes before a byte that differs is the same, and that byte decides. */
  lemma {:induction false} MemcmpIs(a: seq<Byte>, b: seq<Byte>, i: nat)
    requires |a| == |b| && i < |a| && a[..i] == b[..i] && a[i] != b[i]
    ensures Memcmp(a, b) == if a[i] < b[i] then -1 else 1
  {
    if i > 0 {
      assert a[0] == a[..i][0] == b[..i][0] == b[0];
      assert a[1..][..i - 1] == a[..i][1..] && b[1..][..i - 1] == b[..i][1..];
      MemcmpIs(a[1..], b[1..], i - 1);
    }
  }

  lemma {:induction false} MemcmpSplits(a: seq<Byte>, b: seq<Byte>, n: nat)
    requires |a| == |b| && n <= |a|
    ensures Memcmp(a, b) == if Memcmp(a[..n], b[..n]) != 0 then Memcmp(a[..n], b[..n]) else Memcmp(a[n..], b[n..])
  {
    if n > 0 && a[0] == b[0] {
      MemcmpSplits(a[1..], b[1..], n - 1);
      assert a[..n] == [a[0]] + a[1..][..n - 1] && b[..n] == [b[0]] + b[1..][..n - 1];
    }
  }

  lemma ChainBytes(chain: Chain, d: seq<Byte>, i: nat, n: nat)
    requires chain.Holds(d) && i + n <= |d|
    ensures chain.misalign + i + n <= chain.buffer.Length
    ensures chain.buffer[chain.misalign + i..chain.misalign + i + n] == d[i..i + n]
  {
    var m, s := chain.misalign, chain.buffer[..];
    assert d == chain.buffer[m..m + chain.off] == s[m..m + chain.off];
    Inner(s, m, chain.off, i, i + n);
  }

  /** The first chunk that differs decides for the whole. */
  lemma ChunkDecides(chunks: seq<seq<Byte>>, k: nat, i: nat, n: nat, at: nat, mem: seq<Byte>, done: nat)
    requires k < |chunks| && i + n <= |chunks[k]| && done + n <= |mem| && at + done == |Flatten(chunks[..k])| + i
    requires Matches(Flatten(chunks), at, mem, done) && at + |mem| <= |Flatten(chunks)|
    ensures Memcmp(chunks[k][i..i + n], mem[done..done + n]) != 0 ==>
              Memcmp(Flatten(chunks)[at..at + |mem|], mem) == Memcmp(chunks[k][i..i + n], mem[done..done + n])
  {
    hide Flatten;
    var s := Flatten(chunks);
    var t := s[at..at + |mem|];
    SliceAt(chunks, k, i, n);
    Inner(s, at, |mem|, 0, done);
    Inner(s, at, |mem|, done, done + n);
    MemcmpSplits(t, mem, done);
    assert t[..done] == t[0..done] == mem[..done];
    MemcmpSplits(t[done..], mem[done..], n);
    assert t[done..][..n] == t[done..done + n] && mem[done..][..n] == mem[done..done + n];
  }

  /** evbuffer_ptr_memcmp. */
  method PtrMemcmp(buf: EvBuffer, p: Ptr, mem: seq<Byte>, ghost k0: nat) returns (r: int)
    requires Points(buf, p, k0)
    ensures r == 0 <==> Matches(buf.Contents(), p.pos, mem, |mem|)
    ensures 0 <= p.pos && r == if p.pos + |mem| > |buf.Contents()| then -1 else Memcmp(buf.Contents()[p.pos..p.pos + |mem|], mem)
  {
    PointInside(buf, p, k0);
    assert buf.totalLen == |buf.Contents()|;
    if p.pos + |mem| > buf.totalLen {
      return -1;
    }
    r := CompareChains(buf, p, mem, k0);
    assert mem[..|mem|] == mem;
  }

  /** Its loop over the chains. */
  method CompareChains(buf: EvBuffer, p: Ptr, mem: seq<Byte>, ghost k0: nat) returns (r: int)
    requires Points(buf, p, k0) && 0 <= p.pos && p.pos + |mem| <= |buf.Contents()|
    ensures r == Memcmp(buf.Contents()[p.pos..p.pos + |mem|], mem)
  {
    hide Points, Matches, Memcmp;
    var chain := p.chain;
    var position: nat, done: nat := p.posInChain, 0;
    ghost var k: nat := k0;
    MatchNone(buf.Contents(), p.pos, mem);
    while done < |mem| && chain != null
      invariant done <= |mem| && (done == |mem| || Points(buf, Ptr(p.pos + done, chain, position), k))
      invariant Matches(buf.Contents(), p.pos, mem, done)
      decreases |mem| - done, |buf.chains| - k
    {
      InChain(buf, Ptr(p.pos + done, chain, position), k);
      var len := |mem| - done;
      var n := if len + position > chain.off then chain.off - position else len;
      MatchMore(buf.chunks, k, position, n, p.pos, mem, done);
      ChainBytes(chain, buf.chunks[k], position, n);
      r := Memcmp(chain.buffer[chain.misalign + position..chain.misalign + position + n], mem[done..done + n]);
      Different(buf.chunks[k][position..position + n], mem[done..done + n]);
      if r != 0 {
        ChunkDecides(buf.chunks, k, position, n, p.pos, mem, done);
        return;
      }
      NextChain(buf, Ptr(p.pos + done, chain, position), k);
      done := done + n;
      position := 0;
      chain := chain.next;
      k := k + 1;
    }
    if done < |mem| {
      AtEnd(buf, Ptr(p.pos + done, chain, position), k);
    }
    Matched(buf.Contents(), p.pos, mem);
    Different(buf.Contents()[p.pos..p.pos + |mem|], mem);
    return 0;
  }

  lemma Different(a: seq<Byte>, b: seq<Byte>)
    requires |a| == |b|
    ensures Memcmp(a, b) == 0 <==> a == b
  {
  }

  lemma Matched(s: seq<Byte>, at: nat, mem: seq<Byte>)
    requires Matches(s, at, mem, |mem|)
    ensures at + |mem| <= |s| && s[at..at + |mem|] == mem
  {
    assert mem[..|mem|] == mem;
  }

  lemma MatchNone(s: seq<Byte>, at: int, mem: seq<Byte>)
    requires 0 <= at <= |s|
    ensures Matches(s, at, mem, 0)
  {
  }

  lemma InChain(buf: EvBuffer, p: Ptr, k: nat)
    requires Points(buf, p, k) && p.chain != null
    ensures k < |buf.chains| == |buf.chunks| && p.chain == buf.chains[k] && p.chain.Holds(buf.chunks[k])
    ensures p.posInChain <= p.chain.off == |buf.chunks[k]| && p.pos == |Flatten(buf.chunks[..k])| + p.posInChain
  {
    PointInside(buf, p, k);
  }

  lemma AtEnd(buf: EvBuffer, p: Ptr, k: nat)
    requires Points(buf, p, k) && p.chain == null
    ensures p.pos == |buf.Contents()|
  {
    PointInside(buf, p, k);
  }

  const EV_SSIZE_MAX := 0x7fff_ffff_ffff_ffff

  /** The pattern starts nowhere from position a to position b. */
  ghost predicate NoMatch(s: seq<Byte>, a: int, b: int, what: seq<Byte>)
  {
    forall q :: a <= q < b ==> !Matches(s, q, what, |what|)
  }

  /** Where the first byte does not occur, the pattern does not start. */
  lemma NoMatchInChunk(chunks: seq<seq<Byte>>, k: nat, i: nat, j: nat, a: int, what: seq<Byte>)
    requires what != [] && k < |chunks| && i <= j <= |chunks[k]| && forall x :: i <= x < j ==> chunks[k][x] != what[0]
    requires NoMatch(Flatten(chunks), a, |Flatten(chunks[..k])| + i, what)
    ensures NoMatch(Flatten(chunks), a, |Flatten(chunks[..k])| + j, what)
  {
    var base, s := |Flatten(chunks[..k])|, Flatten(chunks);
    forall q | base + i <= q < base + j ensures !Matches(s, q, what, |what|) {
      ByteAt(chunks, k, q - base);
      assert s[q] != what[0];
      if Matches(s, q, what, |what|) {
        MatchFirst(s, q, what);
      }
    }
  }

  lemma MatchFirst(s: seq<Byte>, q: int, what: seq<Byte>)
    requires Matches(s, q, what, |what|) && what != []
    ensures s[q] == what[0]
  {
    assert s[q..q + |what|][0] == what[..|what|][0];
  }

  /** evbuffer_search_range. */
  method SearchRange(buf: EvBuffer, what: seq<Byte>, start: Ptr, end: Option<Ptr>, ghost k0: nat, ghost ke: nat)
      returns (pos: Ptr, ghost k: nat)
    requires Points(buf, start, k0) && (end.Some? ==> Points(buf, end.value, ke))
    ensures what == [] || |what| > EV_SSIZE_MAX ==> pos == start
    ensures 0 < |what| <= EV_SSIZE_MAX && pos.pos == -1 ==>
              forall q :: start.pos <= q && Matches(buf.Contents(), q, what, |what|) ==> end.Some? && q + |what| > end.value.pos
    ensures 0 < |what| <= EV_SSIZE_MAX && pos.pos != -1 ==>
              && Points(buf, pos, k) && start.pos <= pos.pos && Matches(buf.Contents(), pos.pos, what, |what|)
              && NoMatch(buf.Contents(), start.pos, pos.pos, what) && (end.Some? ==> pos.pos + |what| <= end.value.pos)
  {
    pos, k := start, k0;
    if 0 < |what| <= EV_SSIZE_MAX {
      pos, k := SearchFrom(buf, what, start, end, k0, ke);
    }
  }

  /** The loop of evbuffer_search_range. */
  method SearchFrom(buf: EvBuffer, what: seq<Byte>, start: Ptr, end: Option<Ptr>, ghost k0: nat, ghost ke: nat)
      returns (pos: Ptr, ghost k: nat)
    requires Points(buf, start, k0) && (end.Some? ==> Points(buf, end.value, ke)) && what != []
    ensures pos.pos == -1 ==>
              forall q :: start.pos <= q && Matches(buf.Contents(), q, what, |what|) ==> end.Some? && q + |what| > end.value.pos
    ensures pos.pos != -1 ==>
              && Points(buf, pos, k) && start.pos <= pos.pos && Matches(buf.Contents(), pos.pos, what, |what|)
              && NoMatch(buf.Contents(), start.pos, pos.pos, what) && (end.Some? ==> pos.pos + |what| <= end.value.pos)
  {
    hide Matches;
    pos, k := start, k0;
    var lastChain := if end.Some? then end.value.chain else null;
    while pos.chain != null
      invariant Points(buf, pos, k) && start.pos <= pos.pos && NoMatch(buf.Contents(), start.pos, pos.pos, what)
      decreases |buf.chains| - k, |buf.Contents()| - pos.pos
    {
      InChain(buf, pos, k);
      var chain := pos.chain;
      var j := FindByte(chain, pos.posInChain, what[0], buf.chunks[k]);
      NoMatchInChunk(buf.chunks, k, pos.posInChain, j, start.pos, what);
      if j < chain.off {
        MovePtr(buf, pos, k, j);
        pos := Ptr(pos.pos + j - pos.posInChain, chain, j);
        var r := PtrMemcmp(buf, pos, what, k);
        if r == 0 {
          if end.Some? && pos.pos + |what| > end.value.pos {
            pos := Ptr(-1, null, 0);
          }
          return;
        }
        MovePtr(buf, pos, k, j + 1);
        pos := Ptr(pos.pos + 1, chain, j + 1);
        if pos.posInChain == chain.off {
          NextChain(buf, pos, k);
          pos := Ptr(pos.pos, chain.next, 0);
          k := k + 1;
        }
      } else {
        if chain == lastChain {
          EndInChain(buf, end.value, ke, k);
          return Ptr(-1, null, 0), k;
        }
        NextChain(buf, pos, k);
        pos := Ptr(pos.pos + chain.off - pos.posInChain, chain.next, 0);
        k := k + 1;
      }
    }
    AtEnd(buf, pos, k);
    NoMatchAtEnd(buf.Contents(), what);
    pos := Ptr(-1, null, 0);
  }

  lemma NoMatchAtEnd(s: seq<Byte>, what: seq<Byte>)
    requires what != []
    ensures forall q :: q >= |s| ==> !Matches(s, q, what, |what|)
  {
  }

  /** A pointer into chain k counts no more bytes than there are up to the end of the chain. */
  lemma EndInChain(buf: EvBuffer, end: Ptr, ke: nat, k: nat)
    requires Points(buf, end, ke) && k < |buf.chains| && end.chain == buf.chains[k]
    ensures end.pos <= |Flatten(buf.chunks[..k])| + |buf.chunks[k]|
  {
    assert ke == k by {
      assert buf.chains[ke] == buf.chains[k];
    }
  }

  lemma MovePtr(buf: EvBuffer, p: Ptr, k: nat, j: nat)
    requires Points(buf, p, k) && k < |buf.chains| && j <= |buf.chunks[k]|
    ensures Points(buf, Ptr(p.pos + j - p.posInChain, p.chain, j), k)
    ensures p.pos + j - p.posInChain <= |buf.Contents()|
  {
    PointInside(buf, Ptr(p.pos + j - p.posInChain, p.chain, j), k);
  }

  /** evbuffer_ptr_set: EVBUFFER_PTR_SET starts at the first chain, EVBUFFER_PTR_ADD at the pointer. */
  method PtrSet(buf: EvBuffer, p: Ptr, n: nat, add: bool, ghost k0: nat) returns (ok: bool, r: Ptr, ghost k: nat)
    requires if add then Points(buf, p, k0) else buf.Linked()
    ensures ok <==> (if add then p.pos else 0) + n < |buf.Contents()|
    ensures if ok then Points(buf, r, k) && r.pos == (if add then p.pos else 0) + n && k < |buf.chains| && r.posInChain < |buf.chunks[k]|
            else r.pos == -1
  {
    var pos: int := if add then p.pos + n else n;
    var chain := if add then p.chain else buf.first;
    var position: nat, left: nat := if add then p.posInChain else 0, n;
    k := if add then k0 else 0;
    assert !add ==> buf.chunks[..0] == [];
    while chain != null && position + left >= chain.off
      invariant Points(buf, Ptr(pos - left, chain, position), k)
      decreases |buf.chains| - k
    {
      InChain(buf, Ptr(pos - left, chain, position), k);
      NextChain(buf, Ptr(pos - left, chain, position), k);
      left := left - (chain.off - position);
      chain, position, k := chain.next, 0, k + 1;
    }
    PointInside(buf, Ptr(pos - left, chain, position), k);
    if chain != null {
      InChain(buf, Ptr(pos - left, chain, position), k);
      MovePtr(buf, Ptr(pos - left, chain, position), k, position + left);
      ByteAt(buf.chunks, k, position + left);
      return true, Ptr(pos, chain, position + left), k;
    }
    return false, Ptr(-1, null, p.posInChain), k;
  }

  /** evbuffer_strspn with the characters of EVBUFFER_EOL_ANY. */
  method Strspn(buf: EvBuffer, start: Ptr, ghost k0: nat) returns (count: int)
    requires Points(buf, start, k0)
    ensures count == if start.chain == null then -1 else EolRun(buf.Contents(), start.pos)
  {
    hide EolRun, Flatten;
    if start.chain == null {
      return -1;
    }
    count := 0;
    var chain := start.chain;
    var i: nat := start.posInChain;
    ghost var k: nat := k0;
    ghost var s := buf.Contents();
    while true
      invariant chain != null && count >= 0 && Points(buf, Ptr(start.pos + count, chain, i), k)
      invariant EolRun(s, start.pos) == count + EolRun(s, start.pos + count)
      decreases |buf.chains| - k
    {
      InChain(buf, Ptr(start.pos + count, chain, i), k);
      var j := SpanInChain(chain, i, buf.chunks[k]);
      RunInChain(buf, Ptr(start.pos + count, chain, i), k, j);
      count := count + j - i;
      if j < chain.off || chain.next == null {
        return;
      }
      chain, i, k := chain.next, 0, k + 1;
    }
  }

  /** The ends of line in one chain, and whether the run may go on in the next one. */
  lemma RunInChain(buf: EvBuffer, p: Ptr, k: nat, j: nat)
    requires Points(buf, p, k) && k < |buf.chains| && p.posInChain <= j <= |buf.chunks[k]| == buf.chains[k].off
    requires forall x :: p.posInChain <= x < j ==> buf.chunks[k][x] in {CR, LF}
    requires j < |buf.chunks[k]| ==> buf.chunks[k][j] !in {CR, LF}
    ensures var q := p.pos + j - p.posInChain; var s := buf.Contents();
            && EolRun(s, p.pos) == j - p.posInChain + EolRun(s, q)
            && (j < buf.chains[k].off || buf.chains[k].next == null ==> EolRun(s, q) == 0)
            && (j == buf.chains[k].off ==> Points(buf, Ptr(q, buf.chains[k].next, 0), k + 1))
  {
    hide Flatten;
    RunStep(buf.chunks, k, p.posInChain, j);
    MovePtr(buf, p, k, j);
    NextChain(buf, Ptr(p.pos + j - p.posInChain, p.chain, j), k);
    if j == buf.chains[k].off && buf.chains[k].next == null {
      PointInside(buf, Ptr(p.pos + j - p.posInChain, null, 0), k + 1);
    }
  }

  /** The number of consecutive ends of line from a position on. */
  ghost function EolRun(s: seq<Byte>, at: int): nat
    decreases |s| - at
  {
    if 0 <= at < |s| && s[at] in {CR, LF} then 1 + EolRun(s, at + 1) else 0
  }

  /** It counts up to the first other byte. */
  lemma {:induction false} EolRunIs(s: seq<Byte>, at: nat, n: nat)
    requires at + n <= |s| && (forall x :: at <= x < at + n ==> s[x] in {CR, LF}) && (at + n < |s| ==> s[at + n] !in {CR, LF})
    ensures EolRun(s, at) == n
    decreases n
  {
    if n > 0 {
      EolRunIs(s, at + 1, n - 1);
    }
  }

  method SpanInChain(chain: Chain, i: nat, ghost d: seq<Byte>) returns (j: nat)
    requires chain.Holds(d) && i <= |d|
    ensures i <= j <= |d| == chain.off && forall x :: i <= x < j ==> d[x] in {CR, LF}
    ensures j < |d| ==> d[j] !in {CR, LF}
  {
    j := i;
    while j < chain.off && (chain.buffer[chain.misalign + j] == CR || chain.buffer[chain.misalign + j] == LF)
      invariant i <= j <= |d| && forall x :: i <= x < j ==> d[x] in {CR, LF}
    {
      j := j + 1;
    }
  }

  lemma {:induction false} RunStep(chunks: seq<seq<Byte>>, k: nat, i: nat, j: nat)
    requires k < |chunks| && i <= j <= |chunks[k]| && forall x :: i <= x < j ==> chunks[k][x] in {CR, LF}
    ensures |Flatten(chunks[..k])| + j <= |Flatten(chunks)|
    ensures var base := |Flatten(chunks[..k])|;
            EolRun(Flatten(chunks), base + i) == j - i + EolRun(Flatten(chunks), base + j)
    ensures j < |chunks[k]| && chunks[k][j] !in {CR, LF} ==> EolRun(Flatten(chunks), |Flatten(chunks[..k])| + j) == 0
    decreases j - i
  {
    SliceAt(chunks, k, i, j - i);
    if j < |chunks[k]| {
      ByteAt(chunks, k, j);
    }
    if i < j {
      ByteAt(chunks, k, i);
      RunStep(chunks, k, i + 1, j);
    }
  }

  datatype EolStyle = EolAny | EolCrlf | EolCrlfStrict | EolLf

  /** The length of the line terminator at a position, if there is one. */
  ghost function EolAt(s: seq<Byte>, at: int, style: EolStyle): nat
  {
    match style
    case EolAny => EolRun(s, at)
    case EolCrlf => if 0 <= at < |s| && s[at] == LF then 1 else if Matches(s, at, [CR, LF], 2) then 2 else 0
    case EolCrlfStrict => if Matches(s, at, [CR, LF], 2) then 2 else 0
    case EolLf => if 0 <= at < |s| && s[at] == LF then 1 else 0
  }

  ghost predicate NoEol(s: seq<Byte>, a: int, b: int, style: EolStyle)
  {
    forall q :: a <= q < b ==> EolAt(s, q, style) == 0
  }

  /** Where there is neither CR nor LF, there is no end of line. */
  lemma NoneNoEol(s: seq<Byte>, a: int, b: int, style: EolStyle)
    requires NoneOf(s, a, b, {CR, LF}) || (style == EolLf && NoneOf(s, a, b, {LF}))
    ensures NoEol(s, a, b, style)
  {
    forall q | a <= q < b ensures EolAt(s, q, style) == 0 {
      assert s[q] !in {LF};
      if Matches(s, q, [CR, LF], 2) {
        MatchFirst(s, q, [CR, LF]);
      }
    }
  }

  lemma EolInside(s: seq<Byte>, at: int, style: EolStyle)
    requires 0 <= at <= |s|
    ensures at + EolAt(s, at, style) <= |s|
    decreases |s| - at
  {
    if style == EolAny && at < |s| && s[at] in {CR, LF} {
      EolInside(s, at + 1, style);
    }
  }

  /** The loop of evbuffer_search_eol for EVBUFFER_EOL_CRLF: a CR alone does not end a line. */
  method SearchCrlf(buf: EvBuffer, start: Ptr, ghost k0: nat) returns (it: Ptr, len: nat, ghost k: nat)
    requires Points(buf, start, k0)
    ensures it.pos == -1 || Points(buf, it, k)
    ensures it.pos == -1 ==> NoEol(buf.Contents(), start.pos, |buf.Contents()|, EolCrlf)
    ensures it.pos != -1 ==> start.pos <= it.pos < |buf.Contents()| && len == EolAt(buf.Contents(), it.pos, EolCrlf) > 0
                             && NoEol(buf.Contents(), start.pos, it.pos, EolCrlf)
  {
    hide EolAt, Matches;
    it, k, len := start, k0, 0;
    PointInside(buf, start, k0);
    ghost var s := buf.Contents();
    while true
      invariant Points(buf, it, k) && start.pos <= it.pos <= |s| && NoEol(s, start.pos, it.pos, EolCrlf)
      decreases |s| - it.pos
    {
      ghost var before := it.pos;
      var r;
      r, it, k := FindEol(buf, it, k);
      if r == -1 {
        NoneNoEol(s, before, |s|, EolCrlf);
        return Ptr(-1, null, 0), 0, k;
      }
      NoneNoEol(s, before, r, EolCrlf);
      len := CrlfAt(buf, it, k);
      if len > 0 {
        return;
      }
      var ok;
      ok, it, k := PtrSet(buf, it, 1, true, k);
      if !ok {
        return Ptr(-1, null, 0), 0, k;
      }
    }
  }

  /** evbuffer_getchr and evbuffer_ptr_memcmp at a CR or LF. */
  method CrlfAt(buf: EvBuffer, it: Ptr, ghost k: nat) returns (len: nat)
    requires Points(buf, it, k) && k < |buf.chains| && it.posInChain < |buf.chunks[k]|
    ensures len == EolAt(buf.Contents(), it.pos, EolCrlf)
  {
    InChain(buf, it, k);
    ChainByte(it.chain, buf.chunks[k], it.posInChain);
    ByteAt(buf.chunks, k, it.posInChain);
    if it.chain.buffer[it.chain.misalign + it.posInChain] == LF {
      return 1;
    }
    var r := PtrMemcmp(buf, it, [CR, LF], k);
    len := if r == 0 then 2 else 0;
  }

  lemma ChainByte(chain: Chain, d: seq<Byte>, i: nat)
    requires chain.Holds(d) && i < |d|
    ensures chain.misalign + i < chain.buffer.Length && chain.buffer[chain.misalign + i] == d[i]
  {
  }

  /** evbuffer_search_eol. */
  method SearchEol(buf: EvBuffer, start: Ptr, style: EolStyle, ghost k0: nat) returns (it: Ptr, len: nat, ghost k: nat)
    requires Points(buf, start, k0)
    ensures it.pos == -1 || Points(buf, it, k)
    ensures it.pos == -1 ==> NoEol(buf.Contents(), start.pos, |buf.Contents()|, style)
    ensures it.pos != -1 ==> start.pos <= it.pos < |buf.Contents()| && len == EolAt(buf.Contents(), it.pos, style) > 0
                             && NoEol(buf.Contents(), start.pos, it.pos, style)
  {
    PointInside(buf, start, k0);
    ghost var s := buf.Contents();
    var r: int := 0;
    match style
    case EolAny =>
      r, it, k := FindEol(buf, start, k0);
      if r == -1 {
        NoneNoEol(s, start.pos, |s|, style);
        return Ptr(-1, null, 0), 0, k;
      }
      NoneNoEol(s, start.pos, r, style);
      len := Strspn(buf, it, k);
    case EolCrlfStrict =>
      it, k := SearchRange(buf, [CR, LF], start, None, k0, 0);
      StrictEol(s, start.pos, it.pos);
      len := 2;
    case EolCrlf =>
      it, len, k := SearchCrlf(buf, start, k0);
    case EolLf =>
      r, it, k := Strchr(buf, start, LF, k0);
      if r == -1 {
        NoneNoEol(s, start.pos, |s|, style);
        return Ptr(-1, null, 0), 0, k;
      }
      NoneNoEol(s, start.pos, r, style);
      len := 1;
  }

  lemma StrictEol(s: seq<Byte>, a: int, b: int)
    ensures NoMatch(s, a, b, [CR, LF]) ==> NoEol(s, a, b, EolCrlfStrict)
    ensures (forall q :: a <= q ==> !Matches(s, q, [CR, LF], 2)) ==> NoEol(s, a, |s|, EolCrlfStrict)
  {
  }

  /** evbuffer_readln: the line, without the terminator, which is taken off too. */
  method Readln(buf: EvBuffer, style: EolStyle) returns (ok: bool, line: seq<Byte>)
    requires buf.Valid()
    modifies buf, Nodes(buf.chains)
    ensures buf.Valid() && (old(buf.Tight()) ==> buf.Tight())
    ensures !ok ==> buf.Contents() == old(buf.Contents())
    ensures old(buf.freezeStart) ==> !ok
    ensures !ok && !old(buf.freezeStart) ==> NoEol(buf.Contents(), 0, |buf.Contents()|, style)
    ensures ok ==> var len := EolAt(old(buf.Contents()), |line|, style);
              && len > 0 && |line| + len <= |old(buf.Contents())| && NoEol(old(buf.Contents()), 0, |line|, style)
              && old(buf.Contents()) == line + old(buf.Contents())[|line|..|line| + len] + buf.Contents()
  {
    if buf.freezeStart {
      return false, [];
    }
    assert buf.chunks[..0] == [];
    var it, len, _ := SearchEol(buf, Ptr(0, buf.first, 0), style, 0);
    if it.pos < 0 {
      return false, [];
    }
    EolInside(buf.Contents(), it.pos, style);
    ok := true;
    line := TakeLine(buf, it.pos, len);
  }

  method TakeLine(buf: EvBuffer, n: nat, len: nat) returns (line: seq<Byte>)
    requires buf.Valid() && !buf.freezeStart && n + len <= |buf.Contents()|
    modifies buf, Nodes(buf.chains)
    ensures buf.Valid() && (old(buf.Tight()) ==> buf.Tight()) && |line| == n
    ensures old(buf.Contents()) == line + old(buf.Contents())[n..n + len] + buf.Contents()
  {
    hide EvBuffer.Valid, EvBuffer.Tight;
    ghost var s := buf.Contents();
    var r, data := buf.Remove(n);
    line := data;
    ghost var rest := buf.Contents();
    var _ := buf.Drain(len);
    SplitLine(s, data, rest, len);
  }

  lemma SplitLine(s: seq<Byte>, line: seq<Byte>, rest: seq<Byte>, len: nat)
    requires s == line + rest && len <= |rest|
    ensures s == line + s[|line|..|line| + len] + rest[len..]
  {
    assert s[|line|..|line| + len] == rest[..len];
  }
}
