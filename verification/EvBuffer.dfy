/** evbuffer: a byte queue kept as a linked list of chains. */
module EvBuffers {
  import opened Bytes

  const MIN_BUFFER_SIZE: nat := 1024
  const EVBUFFER_CHAIN_SIZE: nat := 48
  const EVBUFFER_CHAIN_MAX_AUTO_SIZE: nat := 4096
  const MAX_TO_COPY_IN_EXPAND: nat := 4096
  const MAX_TO_REALIGN_IN_EXPAND: nat := 2048

  function Doubled(n: nat, times: nat): nat
  {
    if times == 0 then n else 2 * Doubled(n, times - 1)
  }

  /** The first doubling of MIN_BUFFER_SIZE that holds `size` bytes and the chain header. */
  method AllocationSize(size: nat) returns (toAlloc: nat)
    ensures toAlloc >= MIN_BUFFER_SIZE && toAlloc >= size + EVBUFFER_CHAIN_SIZE
    ensures exists k: nat :: toAlloc == Doubled(MIN_BUFFER_SIZE, k) >= size + EVBUFFER_CHAIN_SIZE
                             && forall j: nat :: j < k ==> Doubled(MIN_BUFFER_SIZE, j) < size + EVBUFFER_CHAIN_SIZE
  {
    toAlloc := MIN_BUFFER_SIZE;
    ghost var k: nat := 0;
    while toAlloc < size + EVBUFFER_CHAIN_SIZE
      invariant toAlloc == Doubled(MIN_BUFFER_SIZE, k) >= MIN_BUFFER_SIZE
      invariant forall j: nat :: j < k ==> Doubled(MIN_BUFFER_SIZE, j) < size + EVBUFFER_CHAIN_SIZE
      decreases size + EVBUFFER_CHAIN_SIZE - toAlloc
    {
      toAlloc, k := toAlloc * 2, k + 1;
    }
  }

  class Chain {
    const buffer: array<Byte>
    var next: Chain?
    var misalign: nat
    var off: nat

    /** The used part of the memory is exactly d. */
    ghost predicate Holds(d: seq<Byte>)
      reads `misalign, `off, buffer
    {
      && 0 < buffer.Length && misalign + off <= buffer.Length
      && buffer[misalign..misalign + off] == d
    }

    constructor (size: nat)
      ensures Holds([]) && fresh(buffer)
      ensures buffer.Length >= size && misalign == 0 && next == null
    {
      var toAlloc := AllocationSize(size);
      buffer := new Byte[toAlloc - EVBUFFER_CHAIN_SIZE](_ => 0);
      next, misalign, off := null, 0, 0;
    }

    /** CHAIN_SPACE_LEN of a mutable chain. */
    function SpaceLen(): int
      reads `misalign, `off
    {
      buffer.Length - (misalign + off)
    }

    predicate ShouldRealign(datlen: nat)
      reads `off
    {
      buffer.Length - off >= datlen && off < buffer.Length / 2 && off <= MAX_TO_REALIGN_IN_EXPAND
    }

    /** memcpy behind the data. */
    method Append(data: seq<Byte>, ghost d: seq<Byte>)
      requires Holds(d) && |data| <= SpaceLen()
      modifies `off, buffer
      ensures Holds(d + data)
    {
      forall k | 0 <= k < |data| {
        buffer[misalign + off + k] := data[k];
      }
      off := off + |data|;
    }

    /** memcpy into the misalignment, in front of the data. */
    method Push(data: seq<Byte>, ghost d: seq<Byte>)
      requires Holds(d) && |data| <= misalign
      modifies `off, `misalign, buffer
      ensures Holds(data + d) && misalign == old(misalign) - |data|
    {
      forall k | 0 <= k < |data| {
        buffer[misalign - |data| + k] := data[k];
      }
      off, misalign := off + |data|, misalign - |data|;
    }

    /** Forget the first n bytes. */
    method Skip(n: nat, ghost d: seq<Byte>)
      requires Holds(d) && n <= off
      modifies `off, `misalign
      ensures Holds(d[n..])
    {
      misalign, off := misalign + n, off - n;
    }

    /** evbuffer_chain_align. */
    method Align(ghost d: seq<Byte>)
      requires Holds(d)
      modifies `misalign, buffer
      ensures Holds(d) && misalign == 0
    {
      forall k | 0 <= k < off {
        buffer[k] := buffer[misalign + k];
      }
      misalign := 0;
    }

    /** The first n bytes of the data. */
    method Bytes(n: nat, ghost d: seq<Byte>) returns (r: seq<Byte>)
      requires Holds(d) && n <= off
      ensures r == d[..n]
    {
      r := buffer[misalign..misalign + n];
    }
  }

  ghost function Nodes(cs: seq<Chain>): set<Chain>
  {
    set c | c in cs
  }

  ghost function Buffers(cs: seq<Chain>): set<array<Byte>>
  {
    set c | c in cs :: c.buffer
  }

  /** Every chain owns its memory. */
  ghost predicate Distinct(cs: seq<Chain>)
  {
    forall i, j :: 0 <= i < j < |cs| ==> cs[i] != cs[j] && cs[i].buffer != cs[j].buffer
  }

  /** c and its memory are not in the list. */
  ghost predicate New(c: Chain, cs: seq<Chain>)
  {
    forall d :: d in cs ==> d != c && d.buffer != c.buffer
  }

  /** Empty chunks from k on hold no bytes of the stream. */
  lemma DropEmptyTail(chunks: seq<seq<Byte>>, k: nat)
    requires k <= |chunks|
    requires forall i :: k <= i < |chunks| ==> chunks[i] == []
    ensures Flatten(chunks[..k]) == Flatten(chunks)
  {
    FlattenCut(chunks, k);
    FlattenEmpty(chunks[k..]);
  }

  lemma {:induction false} NonEmptyHasBytes(chunks: seq<seq<Byte>>)
    ensures Flatten(chunks) == [] <==> forall i :: 0 <= i < |chunks| ==> chunks[i] == []
  {
    if chunks != [] {
      NonEmptyHasBytes(chunks[1..]);
      assert forall i :: 1 <= i < |chunks| ==> chunks[i] == chunks[1..][i - 1];
    }
  }

  /** A non-empty prefix up to lwd, then nothing: chunk lwd is the last with data, or the first of all-empty ones. */
  ghost predicate LastWithData(chunks: seq<seq<Byte>>, lwd: nat)
  {
    && (forall i :: 0 <= i < lwd && i < |chunks| ==> chunks[i] != [])
    && (forall i :: lwd < i < |chunks| ==> chunks[i] == [])
    && (0 < lwd < |chunks| ==> chunks[lwd] != [])
  }

  /** Where evbuffer_chain_insert puts a chain: behind chunk lwd, or over it when nothing is there. */
  ghost function VictimIndex(chunks: seq<seq<Byte>>, lwd: nat): nat
  {
    if lwd < |chunks| && chunks[lwd] != [] then lwd + 1 else lwd
  }

  /** The first empty chunk from i on, or the end. */
  ghost function FirstEmpty(chunks: seq<seq<Byte>>, i: nat): (k: nat)
    requires i <= |chunks|
    ensures i <= k <= |chunks| && (forall j :: i <= j < k ==> chunks[j] != []) && (k < |chunks| ==> chunks[k] == [])
    decreases |chunks| - i
  {
    if i < |chunks| && chunks[i] != [] then FirstEmpty(chunks, i + 1) else i
  }

  ghost predicate EmptyFrom(chunks: seq<seq<Byte>>, k: nat)
  {
    forall i :: k <= i < |chunks| ==> chunks[i] == []
  }

  /** Where the pointer is right, only empty chunks stand from the victim on. */
  lemma VictimIsFirstEmpty(chunks: seq<seq<Byte>>, lwd: nat)
    requires LastWithData(chunks, lwd) && lwd <= |chunks| && (lwd == |chunks| ==> lwd == 0)
    ensures FirstEmpty(chunks, lwd) == VictimIndex(chunks, lwd) && EmptyFrom(chunks, VictimIndex(chunks, lwd))
  {
  }

  /** Freeing the chunks from k on keeps the stream exactly when they are empty: what evbuffer_chain_insert asserts. */
  lemma InsertLoses(chunks: seq<seq<Byte>>, k: nat, d: seq<Byte>)
    requires k <= |chunks|
    ensures Flatten(chunks[..k] + [d]) == Flatten(chunks) + d <==> EmptyFrom(chunks, k)
  {
    hide Flatten;
    FlattenCut(chunks, k);
    FlattenConcat(chunks[..k], [d]);
    FlattenOne(d);
    NonEmptyHasBytes(chunks[k..]);
    if EmptyFrom(chunks, k) {
      InsertKeepsContents(chunks, k, d);
    } else {
      var i :| k <= i < |chunks| && chunks[i] != [];
      assert chunks[k..][i - k] != [];
    }
  }

  /** After the last chunk has been filled up, nothing is freed exactly when every chunk before it has data;
      then the pointer goes to the chunk behind it. */
  lemma FilledThenInserted(chunks: seq<seq<Byte>>, lwd: nat, a: seq<Byte>, d: seq<Byte>)
    requires LastWithData(chunks, lwd) && lwd < |chunks| && a != [] && d != []
    ensures var n := |chunks|; var filled := chunks[n - 1 := chunks[n - 1] + a]; var k := FirstEmpty(filled, lwd);
            && (EmptyFrom(filled, k) <==> Solid(chunks))
            && (Solid(chunks) ==> k == n && LastWithData(filled[..k] + [d], k))
  {
    var n := |chunks|;
    var filled := chunks[n - 1 := chunks[n - 1] + a];
    assert filled[n - 1] != [];
    if Solid(chunks) {
      assert forall i :: 0 <= i < n ==> filled[i] != [];
    }
  }

  /** Every chunk but the last has data. */
  ghost predicate Solid(chunks: seq<seq<Byte>>)
  {
    forall i :: 0 <= i < |chunks| - 1 ==> chunks[i] != []
  }

  /** The pointer stays right iff no spare chain with data in front of it was replaced by data. */
  lemma InsertKeepsPointer(chunks: seq<seq<Byte>>, lwd: nat, d: seq<Byte>)
    requires LastWithData(chunks, lwd) && lwd <= |chunks| && (lwd == |chunks| ==> lwd == 0)
    ensures VictimIndex(chunks, lwd) <= |chunks|
    ensures var k := VictimIndex(chunks, lwd);
            var lwd' := if k == |chunks| && d != [] then k else lwd;
            LastWithData(chunks[..k] + [d], lwd') <==> |chunks| <= lwd + 1 || Flatten(chunks) == [] || d == []
  {
    hide Flatten, LastWithData;
    if lwd < |chunks| && chunks[lwd] != [] {
      FlattenAt(chunks, lwd);
      PointerBehind(chunks, lwd, d);
    } else {
      NothingYet(chunks, lwd);
      FlattenEmpty(chunks);
      OneChunk(d);
      assert chunks[..0] + [d] == [d];
    }
  }

  lemma OneChunk(d: seq<Byte>)
    ensures LastWithData([d], 0)
  {
  }

  lemma NothingYet(chunks: seq<seq<Byte>>, lwd: nat)
    requires LastWithData(chunks, lwd) && (lwd >= |chunks| ==> lwd == 0) && (lwd < |chunks| ==> chunks[lwd] == [])
    ensures lwd == 0 && forall i :: 0 <= i < |chunks| ==> chunks[i] == []
  {
  }

  lemma PointerBehind(chunks: seq<seq<Byte>>, lwd: nat, d: seq<Byte>)
    requires LastWithData(chunks, lwd) && lwd < |chunks| && chunks[lwd] != []
    ensures var lwd' := if lwd + 1 == |chunks| && d != [] then lwd + 1 else lwd;
            LastWithData(chunks[..lwd + 1] + [d], lwd') <==> |chunks| == lwd + 1 || d == []
  {
    var s := chunks[..lwd + 1] + [d];
    assert s[lwd + 1] == d && s[lwd] == chunks[lwd];
  }

  lemma InsertKeepsContents(chunks: seq<seq<Byte>>, k: nat, d: seq<Byte>)
    requires k <= |chunks| && forall i :: k <= i < |chunks| ==> chunks[i] == []
    ensures Flatten(chunks[..k] + [d]) == Flatten(chunks) + d
  {
    DropEmptyTail(chunks, k);
    FlattenConcat(chunks[..k], [d]);
    FlattenOne(d);
  }

  lemma AppendKeepsContents(chunks: seq<seq<Byte>>, data: seq<Byte>)
    requires chunks != []
    ensures var n := |chunks| - 1; Flatten(chunks[n := chunks[n] + data]) == Flatten(chunks) + data
  {
    var n := |chunks| - 1;
    var s := chunks[n := chunks[n] + data];
    FlattenLast(chunks);
    FlattenLast(s);
    assert s[..n] == chunks[..n];
  }

  /** Writing behind the last chain leaves the pointer right iff that chain is the one pointed at. */
  lemma AppendKeepsPointer(chunks: seq<seq<Byte>>, lwd: nat, data: seq<Byte>)
    requires LastWithData(chunks, lwd) && lwd < |chunks|
    ensures var n := |chunks| - 1;
            LastWithData(chunks[n := chunks[n] + data], lwd) <==> |chunks| <= lwd + 1 || data == []
  {
    var n := |chunks| - 1;
    var s := chunks[n := chunks[n] + data];
    assert s[n] == chunks[n] + data;
    if data == [] {
      assert chunks[n] + data == chunks[n];
    }
  }

  /** How much evbuffer_add allocates behind a full chain. */
  function SecondChainSize(bufferLen: nat, datlen: nat): (toAlloc: nat)
    ensures datlen <= toAlloc && bufferLen <= toAlloc
  {
    var doubled := if bufferLen <= EVBUFFER_CHAIN_MAX_AUTO_SIZE / 2 then bufferLen * 2 else bufferLen;
    if datlen > doubled then datlen else doubled
  }

  method NewChainWith(size: nat, data: seq<Byte>) returns (chain: Chain)
    requires |data| <= size
    ensures chain.Holds(data) && chain.next == null && chain.misalign == 0 && chain.buffer.Length >= size
    ensures fresh(chain) && fresh(chain.buffer)
  {
    chain := new Chain(size);
    chain.Append(data, []);
    assert [] + data == data;
  }

  lemma PrependKeeps(chunks: seq<seq<Byte>>, lwd: nat, data: seq<Byte>)
    requires LastWithData(chunks, lwd) && lwd < |chunks|
    ensures Flatten(chunks[0 := data + chunks[0]]) == data + Flatten(chunks)
    ensures LastWithData(chunks[0 := data + chunks[0]], lwd)
    ensures Flatten([data] + chunks) == data + Flatten(chunks)
    ensures data != [] && chunks[0] != [] ==> LastWithData([data] + chunks, lwd + 1)
  {
    assert chunks[0 := data + chunks[0]][1..] == chunks[1..];
    assert ([data] + chunks)[1..] == chunks;
    var s := [data] + chunks;
    assert forall i :: 0 < i < |s| ==> s[i] == chunks[i - 1];
  }

  /** Dropping k chunks and r bytes more drops that many bytes of the stream. */
  lemma DrainKeeps(chunks: seq<seq<Byte>>, lwd: nat, k: nat, r: nat)
    requires LastWithData(chunks, lwd) && k <= lwd < |chunks| && r < |chunks[k]|
    ensures var s := chunks[k..][0 := chunks[k][r..]];
            && LastWithData(s, lwd - k)
            && |Flatten(chunks[..k])| + r <= |Flatten(chunks)|
            && Flatten(s) == Flatten(chunks)[|Flatten(chunks[..k])| + r..]
  {
    var s := chunks[k..][0 := chunks[k][r..]];
    FlattenAt(chunks, k);
    assert s[1..] == chunks[k + 1..];
    assert forall i :: 0 < i < |s| ==> s[i] == chunks[k + i];
  }

  /** A chain with the data at the end of its memory. */
  method NewChainEndingWith(data: seq<Byte>) returns (chain: Chain)
    ensures chain.Holds(data) && fresh(chain) && fresh(chain.buffer)
  {
    chain := new Chain(|data|);
    chain.misalign := chain.buffer.Length;
    chain.Push(data, []);
    assert data + [] == data;
  }

  lemma PrefixAt(chunks: seq<seq<Byte>>, k: nat, n: nat)
    requires k < |chunks| && n <= |chunks[k]|
    ensures Flatten(chunks[..k]) + chunks[k][..n] <= Flatten(chunks)
  {
    FlattenAt(chunks, k);
  }

  /** Joining two lists keeps the pointer right iff the first one has no spare chains. */
  lemma JoinPointer(a: seq<seq<Byte>>, la: nat, b: seq<seq<Byte>>, lb: nat)
    requires LastWithData(a, la) && la < |a| && a[la] != []
    requires LastWithData(b, lb) && lb < |b| && b[lb] != []
    ensures LastWithData(a + b, |a| + lb) <==> |a| <= la + 1
  {
    var s := a + b;
    assert forall i :: 0 <= i < |b| ==> s[|a| + i] == b[i];
    if |a| > la + 1 {
      assert s[la + 1] == a[la + 1] == [];
    }
  }

  /** Pulling k chunks and `left` bytes of the next one into one chunk changes only the cut of the stream. */
  lemma PullupKeepsContents(chunks: seq<seq<Byte>>, k: nat, left: nat, pulled: seq<Byte>)
    requires 0 < k < |chunks| && left < |chunks[k]|
    requires pulled == Flatten(chunks[..k]) + chunks[k][..left]
    ensures Flatten([pulled] + chunks[k..][0 := chunks[k][left..]]) == Flatten(chunks)
  {
    var rest := chunks[k..][0 := chunks[k][left..]];
    assert ([pulled] + rest)[1..] == rest;
    FlattenAt(chunks, k);
    assert rest[1..] == chunks[k + 1..];
  }

  lemma PullupKeepsPointer(chunks: seq<seq<Byte>>, lwd: nat, k: nat, left: nat, pulled: seq<Byte>)
    requires LastWithData(chunks, lwd) && 0 < k < |chunks| && left < |chunks[k]|
    requires Flatten(chunks[..k]) <= pulled
    ensures k <= lwd && LastWithData([pulled] + chunks[k..][0 := chunks[k][left..]], lwd - k + 1)
  {
    var rest := chunks[k..][0 := chunks[k][left..]];
    var s := [pulled] + rest;
    assert pulled != [] by { FlattenAt(chunks[..k], 0); }
    assert s[1] == chunks[k][left..];
    assert forall i :: 1 < i < |s| ==> s[i] == chunks[k + i - 1];
  }

  lemma SnocSlice(chunks: seq<seq<Byte>>, i: nat, k: nat)
    requires i <= k < |chunks|
    ensures Flatten(chunks[i..k + 1]) == Flatten(chunks[i..k]) + chunks[k]
  {
    assert chunks[i..k + 1][..k - i] == chunks[i..k];
    FlattenLast(chunks[i..k + 1]);
  }

  /** The list after pulling k chunks and `left` bytes of the next one together. */
  ghost function PulledList(chunks: seq<seq<Byte>>, k: nat, left: nat, pulled: seq<Byte>): seq<seq<Byte>>
    requires k <= |chunks| && (k < |chunks| ==> left <= |chunks[k]|)
  {
    [pulled] + if k < |chunks| then chunks[k..][0 := chunks[k][left..]] else []
  }

  lemma PullupKeeps(chunks: seq<seq<Byte>>, lwd: nat, k: nat, left: nat, pulled: seq<Byte>)
    requires LastWithData(chunks, lwd) && lwd < |chunks| && 0 < k <= |chunks|
    requires if k < |chunks| then left < |chunks[k]| else left == 0
    requires pulled == Flatten(chunks[..k]) + if k < |chunks| then chunks[k][..left] else []
    ensures var s := PulledList(chunks, k, left, pulled);
            && Flatten(s) == Flatten(chunks)
            && LastWithData(s, if lwd < k then 0 else lwd - k + 1)
            && (k < |chunks| ==> k <= lwd)
  {
    if k < |chunks| {
      PullupKeepsContents(chunks, k, left, pulled);
      PullupKeepsPointer(chunks, lwd, k, left, pulled);
    } else {
      assert chunks[..k] == chunks;
      assert [pulled] + [] == [pulled];
      FlattenOne(pulled);
    }
  }

  lemma SplitAt(chunks: seq<seq<Byte>>, i: nat, k: nat)
    requires i <= k <= |chunks|
    ensures Flatten(chunks[..k]) == Flatten(chunks[..i]) + Flatten(chunks[i..k])
  {
    FlattenCut(chunks[..k], i);
    assert chunks[..k][..i] == chunks[..i] && chunks[..k][i..] == chunks[i..k];
  }

  /** The chains cs are linked from `first` on, and own memory holding the chunks. */
  ghost predicate IsList(first: Chain?, cs: seq<Chain>, chunks: seq<seq<Byte>>)
    reads cs, Buffers(cs)
  {
    && |chunks| == |cs|
    && Distinct(cs)
    && (forall i {:trigger cs[i].Holds(chunks[i])} :: 0 <= i < |cs| ==> cs[i].Holds(chunks[i]))
    && first == (if cs == [] then null else cs[0])
    && (forall i {:trigger cs[i].next} :: 0 <= i < |cs| ==> cs[i].next == if i + 1 < |cs| then cs[i + 1] else null)
  }

  /** A list without empty chunks points at its last one. */
  lemma FullPointer(chunks: seq<seq<Byte>>, lwd: nat)
    requires forall i :: 0 <= i < |chunks| ==> chunks[i] != []
    requires lwd + 1 == |chunks|
    ensures LastWithData(chunks, lwd)
  {
  }

  /** Two lists that share no memory. */
  ghost predicate Separate(a: seq<Chain>, b: seq<Chain>)
  {
    forall c, d :: c in a && d in b ==> c != d && c.buffer != d.buffer
  }

  /** Once the first k chains of b have moved behind a, the two lists still share no memory. */
  lemma ApartAfter(a: seq<Chain>, b: seq<Chain>, k: nat)
    requires Separate(b, a) && Distinct(b) && k <= |b|
    ensures Separate(a, b[..k]) && forall c, d :: (c in a || c in b[..k]) && d in b[k..] ==> c != d && c.buffer != d.buffer
  {
    forall c, d | (c in a || c in b[..k]) && d in b[k..] ensures c != d && c.buffer != d.buffer {
      var j :| 0 <= j < |b| - k && b[k..][j] == d;
      assert d == b[k + j];
      if c in a {
        assert d in b;
      } else {
        var i :| 0 <= i < k && b[i] == c;
      }
    }
  }

  class EvBuffer {
    var first: Chain?
    var last: Chain?
    /** The slot of the last chain with data: null is &first, c is &c.next. */
    var lastWithDatap: Chain?
    var totalLen: nat
    var freezeStart: bool
    var freezeEnd: bool

    /** The chains in list order, their bytes, and the index lastWithDatap points at. */
    ghost var chains: seq<Chain>
    ghost var chunks: seq<seq<Byte>>
    ghost var lwd: nat

    ghost function Contents(): seq<Byte>
      reads `chunks
    {
      Flatten(chunks)
    }

    ghost predicate Shape()
      reads `first, `chains, `chunks, chains, Buffers(chains)
    {
      IsList(first, chains, chunks)
    }

    ghost predicate IsSlot(slot: Chain?, k: nat)
      reads `chains
    {
      k <= |chains| && slot == if k == 0 then null else chains[k - 1]
    }

    /** The structure alone. */
    ghost predicate Linked()
      reads `first, `last, `lastWithDatap, `totalLen, `chains, `chunks, `lwd, chains, Buffers(chains)
    {
      && Shape()
      && IsSlot(lastWithDatap, lwd) && (lwd == |chains| ==> lwd == 0)
      && last == (if chains == [] then null else chains[|chains| - 1])
      && totalLen == |Contents()|
    }

    ghost predicate Pointed()
      reads `chunks, `lwd
    {
      LastWithData(chunks, lwd)
    }

    ghost predicate Valid()
      reads `first, `last, `lastWithDatap, `totalLen, `chains, `chunks, `lwd, chains, Buffers(chains)
    {
      Linked() && Pointed()
    }

    /** No spare empty chains behind the last one with data. */
    ghost predicate Tight()
      reads `chains, `lwd
    {
      |chains| <= lwd + 1
    }

    constructor ()
      ensures Valid() && Tight() && Contents() == [] && chains == []
      ensures !freezeStart && !freezeEnd
    {
      first, last, lastWithDatap, totalLen := null, null, null, 0;
      freezeStart, freezeEnd := false, false;
      chains, chunks, lwd := [], [], 0;
    }

    /** The chain a slot holds. */
    function Deref(slot: Chain?): Chain?
      reads `first, slot
    {
      if slot == null then first else slot.next
    }

    // ----- List primitives -----

    method WriteAt(chain: Chain, ghost k: nat, data: seq<Byte>)
      requires Shape() && k < |chains| && chain == chains[k] && |data| <= chain.SpaceLen()
      modifies `chunks, chain`off, chain.buffer
      ensures Shape() && chunks == old(chunks)[k := old(chunks)[k] + data]
    {
      assert chain.Holds(chunks[k]);
      chain.Append(data, chunks[k]);
      chunks := chunks[k := chunks[k] + data];
    }

    method PushAt(chain: Chain, ghost k: nat, data: seq<Byte>)
      requires Shape() && k < |chains| && chain == chains[k] && |data| <= chain.misalign
      modifies `chunks, chain`off, chain`misalign, chain.buffer
      ensures Shape() && chunks == old(chunks)[k := data + old(chunks)[k]]
      ensures chain.misalign == old(chain.misalign) - |data|
    {
      assert chain.Holds(chunks[k]);
      chain.Push(data, chunks[k]);
      chunks := chunks[k := data + chunks[k]];
    }

    method SkipAt(chain: Chain, ghost k: nat, n: nat)
      requires Shape() && k < |chains| && chain == chains[k] && n <= |chunks[k]|
      modifies `chunks, chain`off, chain`misalign
      ensures Shape() && chunks == old(chunks)[k := old(chunks)[k][n..]]
    {
      assert chain.Holds(chunks[k]);
      chain.Skip(n, chunks[k]);
      chunks := chunks[k := chunks[k][n..]];
    }

    method AlignAt(chain: Chain, ghost k: nat)
      requires Shape() && k < |chains| && chain == chains[k]
      modifies chain`misalign, chain.buffer
      ensures Shape() && chain.misalign == 0
    {
      assert chain.Holds(chunks[k]);
      chain.Align(chunks[k]);
    }

    /** Free the chains from slot k on and put `chain` there. */
    method SetTail(slot: Chain?, ghost k: nat, chain: Chain, ghost d: seq<Byte>)
      requires Shape() && IsSlot(slot, k)
      requires chain.Holds(d) && chain.next == null && New(chain, chains)
      modifies `first, `chains, `chunks, (if slot == null then {} else {slot})`next
      ensures Shape() && chunks == old(chunks)[..k] + [d] && chains == old(chains)[..k] + [chain]
    {
      if slot == null {
        first := chain;
      } else {
        slot.next := chain;
      }
      chains, chunks := chains[..k] + [chain], chunks[..k] + [d];
    }

    /** Free the chains from slot k on. */
    method CutTail(slot: Chain?, ghost k: nat)
      requires Shape() && IsSlot(slot, k)
      modifies `first, `chains, `chunks, (if slot == null then {} else {slot})`next
      ensures Shape() && chunks == old(chunks)[..k] && chains == old(chains)[..k]
    {
      if slot == null {
        first := null;
      } else {
        slot.next := null;
      }
      chains, chunks := chains[..k], chunks[..k];
    }

    /** Drop the chains before `chain`, the k-th. */
    method CutFront(chain: Chain?, ghost k: nat)
      requires Shape() && k <= |chains| && chain == if k < |chains| then chains[k] else null
      modifies `first, `chains, `chunks
      ensures Shape() && chunks == old(chunks)[k..] && chains == old(chains)[k..]
    {
      first := chain;
      chains, chunks := chains[k..], chunks[k..];
    }

    method PushFront(chain: Chain, ghost d: seq<Byte>)
      requires Shape() && chain.Holds(d) && New(chain, chains)
      modifies `first, `chains, `chunks, chain`next
      ensures Shape() && chunks == [d] + old(chunks) && chains == [chain] + old(chains)
    {
      chain.next := first;
      first := chain;
      chains, chunks := [chain] + chains, [d] + chunks;
    }

    /** From last_with_datap, the first slot holding no chain or an empty one. */
    method FirstVictim() returns (slot: Chain?, ghost k: nat)
      requires Shape() && IsSlot(lastWithDatap, lwd)
      ensures IsSlot(slot, k) && k == FirstEmpty(chunks, lwd)
    {
      slot, k := lastWithDatap, lwd;
      while Deref(slot) != null && Deref(slot).off != 0
        invariant IsSlot(slot, k) && lwd <= k && FirstEmpty(chunks, lwd) == FirstEmpty(chunks, k)
        decreases |chains| - k
      {
        assert Deref(slot) == chains[k];
        assert chains[k].Holds(chunks[k]);
        slot, k := Deref(slot), k + 1;
      }
      if k < |chains| {
        assert Deref(slot) == chains[k];
        assert chains[k].Holds(chunks[k]);
      }
    }

    // ----- Operations -----

    /** The pointer updates of evbuffer_chain_insert, once the victim slot is found. */
    method InsertAt(slot: Chain?, ghost k: nat, chain: Chain, ghost d: seq<Byte>)
      requires Shape() && IsSlot(slot, k) && IsSlot(lastWithDatap, lwd) && lwd <= k
      requires chain.Holds(d) && chain.next == null && New(chain, chains)
      modifies `first, `last, `lastWithDatap, `totalLen, `chains, `chunks, `lwd, (if slot == null then {} else {slot})`next
      ensures Shape() && IsSlot(lastWithDatap, lwd) && last == chain && totalLen == old(totalLen) + |d|
      ensures chains == old(chains)[..k] + [chain] && chunks == old(chunks)[..k] + [d]
      ensures lwd == if k == |old(chunks)| && old(chunks) != [] && d != [] then k else old(lwd)
    {
      assert chain.off == |d| by { assert chain.Holds(d); }
      if first != null && Deref(slot) == null && chain.off != 0 {
        // Nothing to replace: the slot is the end of the list.
        lastWithDatap, lwd := slot, k;
      }
      last := chain;
      totalLen := totalLen + chain.off;
      SetTail(slot, k, chain, d);
    }

    /** evbuffer_chains_all_empty. */
    method ChainsAllEmpty(from: Chain?, ghost k: nat) returns (r: bool)
      requires Shape() && k <= |chains| && from == (if k < |chains| then chains[k] else null)
      ensures r <==> EmptyFrom(chunks, k)
    {
      var chain := from;
      ghost var i := k;
      while chain != null
        invariant k <= i <= |chains| && chain == (if i < |chains| then chains[i] else null)
        invariant forall j :: k <= j < i ==> chunks[j] == []
        decreases |chains| - i
      {
        assert chains[i].Holds(chunks[i]);
        if chain.off != 0 {
          return false;
        }
        chain, i := chain.next, i + 1;
      }
      return true;
    }

    /**
     * evbuffer_chain_insert: from the first empty chain on, all give way to `chain`; or it goes behind the last one.
     * It is not done where the assertion fails that nothing with data is freed.
     */
    method ChainInsert(chain: Chain, ghost d: seq<Byte>) returns (done: bool)
      requires Linked() && chain.Holds(d) && chain.next == null && New(chain, chains)
      modifies `first, `last, `lastWithDatap, `totalLen, `chains, `chunks, `lwd
      modifies Nodes(chains)`next, Nodes(chains)`off, Nodes(chains)`misalign
      ensures var k := FirstEmpty(old(chunks), old(lwd));
              && (done <==> EmptyFrom(old(chunks), k))
              && (done ==> chains == old(chains)[..k] + [chain] && chunks == old(chunks)[..k] + [d]
                           && lwd == (if k == |old(chunks)| && old(chunks) != [] && d != [] then k else old(lwd)))
      ensures !done ==> Linked() && chunks == old(chunks) && chains == old(chains) && lwd == old(lwd)
      ensures done ==> Linked() && Contents() == old(Contents()) + d
      ensures chain in chains || !done
      ensures forall c :: c in chains ==> c in old(chains) || c == chain
    {
      hide Flatten, EmptyFrom, FirstEmpty;
      var slot, k := FirstVictim();
      if Deref(slot) != null {
        AtSlot(slot, k);
        var empty := ChainsAllEmpty(Deref(slot), k);
        if !empty {
          return false;
        }
      }
      AtSlot(slot, k);
      EmptyEnd();
      InsertFits(k, d);
      InsertAt(slot, k, chain, d);
      return true;
    }

    lemma EmptyEnd()
      requires Shape()
      ensures EmptyFrom(chunks, |chains|) && |chunks| == |chains|
    {
    }

    lemma InsertFits(k: nat, d: seq<Byte>)
      requires k <= |chunks| && EmptyFrom(chunks, k)
      ensures Flatten(chunks[..k] + [d]) == Contents() + d
    {
      InsertKeepsContents(chunks, k, d);
    }

    lemma AtSlot(slot: Chain?, k: nat)
      requires Shape() && IsSlot(slot, k)
      ensures Deref(slot) == (if k < |chains| then chains[k] else null)
    {
    }

    /** On a valid buffer the insertion is always done; it leaves the pointer right unless it replaced spare chains by data. */
    method InsertValid(chain: Chain, ghost d: seq<Byte>)
      requires Valid() && chain.Holds(d) && chain.next == null && New(chain, chains)
      modifies `first, `last, `lastWithDatap, `totalLen, `chains, `chunks, `lwd
      modifies Nodes(chains)`next, Nodes(chains)`off, Nodes(chains)`misalign
      ensures Linked() && Contents() == old(Contents()) + d
      ensures chain in chains && forall c :: c in chains ==> c in old(chains) || c == chain
      ensures Pointed() <==> old(Tight()) || old(Contents()) == [] || d == []
      ensures Pointed() && (d != [] || old(chains) == []) ==> Tight()
      ensures last == chain
    {
      VictimIsFirstEmpty(chunks, lwd);
      InsertKeepsPointer(chunks, lwd, d);
      var _ := ChainInsert(chain, d);
    }

    /** The chains after an operation are old ones or fresh ones. */
    twostate predicate Grown()
      reads `chains
    {
      forall c :: c in chains ==> c in old(chains) || (fresh(c) && fresh(c.buffer))
    }

    /** Add and prepend start with a chain. */
    method EnsureChain(size: nat)
      requires Valid()
      modifies `first, `last, `lastWithDatap, `totalLen, `chains, `chunks, `lwd
      modifies Nodes(chains)`next, Nodes(chains)`off, Nodes(chains)`misalign
      ensures Valid() && chains != [] && Contents() == old(Contents()) && Grown()
      ensures if old(chains) != [] then chains == old(chains) && chunks == old(chunks) && lwd == old(lwd) else Tight()
      ensures first != null && last != null
      ensures old(first) != null ==> first == old(first) && unchanged(first) && last == old(last) && unchanged(last)
    {
      if first == null {
        var chain := new Chain(size);
        InsertValid(chain, []);
      }
    }

    method AppendToLast(data: seq<Byte>)
      requires Valid() && chains != [] && |data| <= last.SpaceLen()
      modifies `chunks, `totalLen, last`off, last.buffer
      ensures Linked() && Contents() == old(Contents()) + data
      ensures chunks == old(chunks)[|chains| - 1 := old(chunks)[|chains| - 1] + data]
      ensures Pointed() <==> Tight() || data == []
    {
      AppendKeepsContents(chunks, data);
      AppendKeepsPointer(chunks, lwd, data);
      totalLen := totalLen + |data|;
      WriteAt(last, |chains| - 1, data);
    }

    /** evbuffer_add when the last chain is too small: fill it and put the rest in a new chain. */
    method AddInTwo(data: seq<Byte>) returns (done: bool)
      requires Valid() && chains != [] && 0 <= last.SpaceLen() < |data|
      modifies `first, `last, `lastWithDatap, `totalLen, `chains, `chunks, `lwd
      modifies Nodes(chains)`next, Nodes(chains)`off, Nodes(chains)`misalign, Buffers(chains)
      ensures done <==> old(last.SpaceLen()) == 0 || old(Solid(chunks))
      ensures !done ==> Linked() && Contents() == old(Contents()) + data[..old(last.SpaceLen())]
      ensures done ==> Linked() && Contents() == old(Contents()) + data
      ensures done ==> (Pointed() <==> old(last.SpaceLen()) > 0 || old(Tight()) || old(Contents()) == [])
      ensures (done && Pointed() ==> Tight()) && Grown()
    {
      var remain := last.SpaceLen();
      var tmp := NewChainWith(SecondChainSize(last.buffer.Length, |data|), data[remain..]);
      assert data == data[..remain] + data[remain..];
      if remain == 0 {
        InsertValid(tmp, data);
        return true;
      }
      done := FillAndInsert(tmp, data[..remain], data[remain..]);
    }

    method FillAndInsert(tmp: Chain, a: seq<Byte>, d: seq<Byte>) returns (done: bool)
      requires Valid() && chains != [] && |a| == last.SpaceLen() > 0 && d != []
      requires tmp.Holds(d) && tmp.next == null && New(tmp, chains)
      modifies `first, `last, `lastWithDatap, `totalLen, `chains, `chunks, `lwd
      modifies Nodes(chains)`next, Nodes(chains)`off, Nodes(chains)`misalign, Buffers(chains)
      ensures done <==> old(Solid(chunks))
      ensures !done ==> Linked() && Contents() == old(Contents()) + a
      ensures done ==> Valid() && Contents() == (old(Contents()) + a) + d && Tight()
      ensures forall c :: c in chains ==> c in old(chains) || c == tmp
    {
      hide LastWithData, FirstEmpty, EmptyFrom, Solid;
      FilledThenInserted(chunks, lwd, a, d);
      AppendToLast(a);
      done := ChainInsert(tmp, d);
    }

    /** The last chain takes n more bytes, perhaps after its data has been moved to the beginning. */
    ghost predicate FitsLast(n: nat)
      reads `last, last
    {
      last == null || last.SpaceLen() >= n || last.ShouldRealign(n)
    }

    /** A failing assertion stops evbuffer_add: the last chain takes some of the bytes, and an empty one stands before it. */
    ghost predicate AddAsserts(n: nat)
      reads `last, last, `chunks
    {
      !FitsLast(n) && last.SpaceLen() > 0 && !Solid(chunks)
    }

    /** evbuffer_add leaves last_with_datap right. */
    ghost predicate AddPoints(n: nat)
      reads `last, last, `chunks, `chains, `lwd
    {
      Tight() || n == 0 || (!FitsLast(n) && (last.SpaceLen() > 0 || Contents() == []))
    }

    /** evbuffer_add; not `done` where an assertion fails. */
    method Add(data: seq<Byte>) returns (result: int, done: bool)
      requires Valid()
      modifies `first, `last, `lastWithDatap, `totalLen, `chains, `chunks, `lwd
      modifies Nodes(chains)`next, Nodes(chains)`off, Nodes(chains)`misalign, Buffers(chains)
      ensures freezeEnd ==> done && result == -1 && Valid() && chunks == old(chunks)
      ensures !freezeEnd ==> (done <==> !old(AddAsserts(|data|))) && result == if done then 0 else -1
      ensures !freezeEnd && done ==> Linked() && Contents() == old(Contents()) + data && (Pointed() <==> old(AddPoints(|data|)))
      ensures !done ==> Linked() && Contents() == old(Contents()) + data[..old(last.SpaceLen())]
      ensures old(Tight()) ==> done && Tight()
      ensures Grown()
    {
      if freezeEnd {
        return -1, true;
      }
      if first == null {
        EnsureChain(|data|);
        LastFits();
      }
      done := AddBehind(data);
      result := if done then 0 else -1;
    }

    /** evbuffer_add once there is a last chain: into its room, into its misalignment, or in two chains. */
    method AddBehind(data: seq<Byte>) returns (done: bool)
      requires Valid() && chains != []
      modifies `first, `last, `lastWithDatap, `totalLen, `chains, `chunks, `lwd
      modifies Nodes(chains)`next, Nodes(chains)`off, Nodes(chains)`misalign, Buffers(chains)
      ensures done <==> !old(AddAsserts(|data|))
      ensures done ==> Linked() && Contents() == old(Contents()) + data && (Pointed() <==> old(AddPoints(|data|)))
      ensures !done ==> Linked() && Contents() == old(Contents()) + data[..old(last.SpaceLen())]
      ensures (old(Tight()) ==> done && Tight()) && Grown()
    {
      LastFits();
      if Tight() {
        TightIsSolid();
      }
      if last.SpaceLen() >= |data| {
        AppendToLast(data);
        done := true;
      } else if last.ShouldRealign(|data|) {
        AlignAt(last, |chains| - 1);
        AppendToLast(data);
        done := true;
      } else {
        done := AddInTwo(data);
      }
    }

    lemma TightIsSolid()
      requires Valid() && Tight()
      ensures Solid(chunks)
    {
    }

    lemma LastFits()
      requires Linked() && chains != []
      ensures 0 <= last.SpaceLen() && last.off == |chunks[|chains| - 1]|
    {
      assert last.Holds(chunks[|chains| - 1]);
    }

    method PushToFirst(data: seq<Byte>)
      requires Valid() && chains != [] && |data| <= first.misalign
      modifies `chunks, `totalLen, first`off, first`misalign, first.buffer
      ensures Valid() && Contents() == data + old(Contents())
      ensures first.misalign == old(first.misalign) - |data|
      ensures data != [] || old(chunks[0]) != [] ==> chunks[0] != []
    {
      PrependKeeps(chunks, lwd, data);
      totalLen := totalLen + |data|;
      PushAt(first, 0, data);
    }

    /** evbuffer_prepend's new first chain. */
    method PrependChain(tmp: Chain, data: seq<Byte>)
      requires Valid() && chains != [] && chunks[0] != [] && data != []
      requires tmp.Holds(data) && New(tmp, chains)
      modifies `first, `chains, `chunks, `lwd, `lastWithDatap, `totalLen, tmp`next
      ensures Valid() && Contents() == data + old(Contents()) && chains == [tmp] + old(chains)
      ensures old(Tight()) ==> Tight()
    {
      PrependKeeps(chunks, lwd, data);
      if lastWithDatap == null {
        lastWithDatap := tmp;
      }
      lwd := lwd + 1;
      totalLen := totalLen + |data|;
      PushFront(tmp, data);
    }

    /** evbuffer_prepend. */
    method Prepend(data: seq<Byte>) returns (result: int)
      requires Valid()
      modifies `first, `last, `lastWithDatap, `totalLen, `chains, `chunks, `lwd
      modifies Nodes(chains)`next, Nodes(chains)`off, Nodes(chains)`misalign, Buffers(chains)
      ensures freezeStart ==> result == -1 && chunks == old(chunks)
      ensures !freezeStart ==> result == 0 && Contents() == data + old(Contents())
      ensures Valid() && Grown() && (old(Tight()) ==> Tight())
    {
      if freezeStart {
        return -1;
      }
      EnsureChain(|data|);
      EmptyAtTheBeginning();
      var room := first.misalign;
      if room >= |data| {
        PushToFirst(data);
        return 0;
      }
      PrependInTwo(data);
      return 0;
    }

    /** evbuffer_prepend when the room in front is too small: fill it and put the rest in a new chain. */
    method PrependInTwo(data: seq<Byte>)
      requires Valid() && chains != [] && first.misalign < |data| && (chunks[0] == [] ==> first.misalign > 0)
      modifies `first, `last, `lastWithDatap, `totalLen, `chains, `chunks, `lwd
      modifies Nodes(chains)`next, Nodes(chains)`off, Nodes(chains)`misalign, Buffers(chains)
      ensures Valid() && Contents() == data + old(Contents()) && Grown() && (old(Tight()) ==> Tight())
    {
      var rest := |data| - first.misalign;
      var tmp := NewChainEndingWith(data[..rest]);
      assert data == data[..rest] + data[rest..];
      if first.misalign > 0 {
        PushToFirst(data[rest..]);
      }
      PrependChain(tmp, data[..rest]);
    }

    /** An empty first chain is treated as empty at the beginning. */
    method EmptyAtTheBeginning()
      requires Valid() && chains != []
      modifies first`misalign
      ensures Valid() && (chunks[0] == [] ==> first.misalign > 0)
      ensures chunks[0] != [] ==> first.misalign == old(first.misalign)
    {
      assert first.Holds(chunks[0]);
      if first.off == 0 {
        first.misalign := first.buffer.Length;
      }
    }

    /** ZERO_CHAIN. */
    method Zero()
      modifies `first, `last, `lastWithDatap, `totalLen, `chains, `chunks, `lwd
      ensures Valid() && Tight() && Contents() == [] && chains == []
    {
      first, last, lastWithDatap, totalLen := null, null, null, 0;
      chains, chunks, lwd := [], [], 0;
    }

    /** Find the first chain to keep when len bytes leave, moving the pointer off the chains that go. */
    method DrainScan(len: nat) returns (chain: Chain, previous: Chain?, remaining: nat, ghost k: nat)
      requires Valid() && len < totalLen
      modifies `lastWithDatap
      ensures k <= lwd < |chains| && chain == chains[k] && IsSlot(previous, k)
      ensures remaining < |chunks[k]| && remaining + |Flatten(chunks[..k])| == len
      ensures lastWithDatap == if lwd <= k then null else chains[lwd - 1]
    {
      HasData();
      remaining, chain, previous, k := len, first, null, 0;
      assert chunks[..0] == [];
      assert chains[0].Holds(chunks[0]);
      while remaining >= chain.off
        invariant k <= lwd && chain == chains[k] && chain.off == |chunks[k]| && IsSlot(previous, k)
        invariant remaining + |Flatten(chunks[..k])| == len
        invariant lastWithDatap == if lwd <= k then null else chains[lwd - 1]
        decreases |chains| - k
      {
        DrainStep(k);
        remaining := remaining - chain.off;
        if chain == lastWithDatap {
          lastWithDatap := null;
        }
        chain, previous, k := chain.next, chain, k + 1;
        assert chains[k].Holds(chunks[k]);
      }
    }

    /** Counter and pointer as they are once len bytes have left the front: chain k stays, less `remaining` bytes. */
    method DrainPlan(len: nat) returns (chain: Chain, previous: Chain?, remaining: nat, ghost k: nat)
      requires Valid() && len < totalLen
      modifies `lastWithDatap, `totalLen, `lwd
      ensures k < |chains| && chain == chains[k] && IsSlot(previous, k) && remaining < |chunks[k]|
      ensures remaining + |Flatten(chunks[..k])| == len && forall i :: 0 <= i < k ==> chunks[i] != []
      ensures var cs := chains[k..];
              && lwd < |cs| && lastWithDatap == (if lwd == 0 then null else cs[lwd - 1])
              && last == cs[|cs| - 1] && (old(Tight()) ==> |cs| <= lwd + 1)
      ensures var s := chunks[k..][0 := chunks[k][remaining..]];
              LastWithData(s, lwd) && totalLen == |Flatten(s)| && Flatten(s) == Contents()[len..]
      ensures Flatten(chunks[..k]) + chunks[k][..remaining] == Contents()[..len]
    {
      chain, previous, remaining, k := DrainScan(len);
      DrainKeeps(chunks, lwd, k, remaining);
      PrefixAt(chunks, k, remaining);
      totalLen, lwd := totalLen - len, lwd - k;
    }

    /** evbuffer_drain when some bytes stay. */
    method DrainSome(len: nat)
      requires Valid() && len < totalLen
      modifies `first, `last, `lastWithDatap, `totalLen, `chains, `chunks, `lwd
      modifies Nodes(chains)`next, Nodes(chains)`off, Nodes(chains)`misalign
      ensures Valid() && Contents() == old(Contents())[len..]
      ensures (forall c :: c in chains ==> c in old(chains)) && (old(Tight()) ==> Tight())
    {
      var chain, _, remaining, k := DrainPlan(len);
      DropFront(chain, k, remaining);
    }

    method DropFront(chain: Chain, ghost k: nat, n: nat)
      requires Shape() && k < |chains| && chain == chains[k] && n <= |chunks[k]|
      modifies `first, `chains, `chunks, chain`off, chain`misalign
      ensures Shape() && chains == old(chains)[k..] && chunks == old(chunks)[k..][0 := old(chunks)[k][n..]]
    {
      CutFront(chain, k);
      SkipAt(chain, 0, n);
    }

    lemma HasData()
      requires Valid() && Contents() != []
      ensures lwd < |chains| && chunks[lwd] != []
    {
      if lwd == |chains| || chunks[lwd] == [] {
        FlattenEmpty(chunks);
      }
    }

    /** In front of last_with_datap the bytes seen so far stay below the total. */
    lemma DrainStep(k: nat)
      requires Shape() && Pointed() && k <= lwd < |chains|
      ensures chains[k].off == |chunks[k]|
      ensures Flatten(chunks[..k + 1]) == Flatten(chunks[..k]) + chunks[k]
      ensures k == lwd ==> |Flatten(chunks[..k + 1])| == |Contents()|
      ensures k < lwd ==> chains[k].next == chains[k + 1]
    {
      assert chains[k].Holds(chunks[k]);
      assert chunks[..k + 1][..k] == chunks[..k];
      FlattenLast(chunks[..k + 1]);
      if k == lwd {
        DropEmptyTail(chunks, k + 1);
      }
    }

    /** evbuffer_drain. */
    method Drain(len: nat) returns (result: int)
      requires Valid()
      modifies `first, `last, `lastWithDatap, `totalLen, `chains, `chunks, `lwd
      modifies Nodes(chains)`next, Nodes(chains)`off, Nodes(chains)`misalign
      ensures result == if old(totalLen) > 0 && freezeStart then -1 else 0
      ensures result != 0 ==> Contents() == old(Contents())
      ensures result == 0 ==> Contents() == old(Contents())[if len < |old(Contents())| then len else |old(Contents())|..]
      ensures Valid() && (old(Tight()) ==> Tight()) && forall c :: c in chains ==> c in old(chains)
    {
      if totalLen == 0 {
        return 0;
      }
      if freezeStart {
        return -1;
      }
      if len >= totalLen {
        Zero();
      } else {
        DrainSome(len);
      }
      return 0;
    }

    /** evbuffer_copyout. */
    method Copyout(datlen: nat) returns (result: int, data: seq<Byte>)
      requires Valid()
      ensures result == (if datlen > 0 && totalLen > 0 && freezeStart then -1 else |data|)
      ensures result == -1 ==> data == []
      ensures result != -1 ==> data == Contents()[..if datlen < |Contents()| then datlen else |Contents()|]
    {
      data := [];
      var left := if datlen >= totalLen then totalLen else datlen;
      if left == 0 {
        return 0, [];
      }
      if freezeStart {
        return -1, [];
      }
      var nread, chain := left, first;
      ghost var k: nat := 0;
      HasData();
      assert chunks[..0] == [];
      while left > 0 && left >= chain.off
        invariant k <= lwd + 1 && lwd < |chains| && chain == (if k < |chains| then chains[k] else null)
        invariant data == Flatten(chunks[..k]) && 0 <= left && left + |data| == nread
        invariant k == lwd + 1 ==> left == 0
        decreases |chains| - k
      {
        DrainStep(k);
        var bytes := chain.Bytes(chain.off, chunks[k]);
        data, left := data + bytes, left - chain.off;
        chain, k := chain.next, k + 1;
      }
      FlattenCut(chunks, k);
      if left > 0 {
        assert chain.Holds(chunks[k]);
        PrefixAt(chunks, k, left);
        var bytes := chain.Bytes(left, chunks[k]);
        data := data + bytes;
      }
      return nread, data;
    }

    /** evbuffer_remove. */
    method Remove(datlen: nat) returns (result: int, data: seq<Byte>)
      requires Valid()
      modifies `first, `last, `lastWithDatap, `totalLen, `chains, `chunks, `lwd
      modifies Nodes(chains)`next, Nodes(chains)`off, Nodes(chains)`misalign
      ensures result == (if datlen > 0 && old(totalLen) > 0 && freezeStart then -1 else |data|)
      ensures result == -1 ==> data == [] && Contents() == old(Contents())
      ensures result != -1 ==> old(Contents()) == data + Contents()
      ensures result != -1 ==> |data| == if datlen < |old(Contents())| then datlen else |old(Contents())|
      ensures Valid() && (old(Tight()) ==> Tight()) && forall c :: c in chains ==> c in old(chains)
    {
      result, data := Copyout(datlen);
      if result > 0 {
        var r := Drain(result);
        if r < 0 {
          result := -1;
        }
      }
    }

    /** Two buffers that share no memory. */
    ghost predicate Apart(other: EvBuffer)
      reads `chains, other`chains
    {
      this != other && Separate(chains, other.chains)
    }

    /** Put the chains of `other` behind ours. */
    method LinkAfter(tail: Chain, other: EvBuffer)
      requires Shape() && other.Shape() && Apart(other) && chains != [] && tail == chains[|chains| - 1]
      modifies `chains, `chunks, tail`next
      ensures Shape() && chains == old(chains) + other.chains && chunks == old(chunks) + other.chunks
    {
      tail.next := other.first;
      chains, chunks := chains + other.chains, chunks + other.chunks;
    }

    /** Put the chains of `other` in front of ours. */
    method LinkBefore(tail: Chain, other: EvBuffer)
      requires Shape() && other.Shape() && Apart(other)
      requires other.chains != [] && tail == other.chains[|other.chains| - 1]
      modifies `first, `chains, `chunks, tail`next
      ensures Shape() && chains == other.chains + old(chains) && chunks == other.chunks + old(chunks)
    {
      tail.next := first;
      first := other.first;
      chains, chunks := other.chains + chains, other.chunks + chunks;
    }

    /** The pointer update of APPEND_CHAIN. */
    method PointAfter(tail: Chain, other: EvBuffer)
      requires this != other && chains != [] && tail == chains[|chains| - 1]
      requires other.IsSlot(other.lastWithDatap, other.lwd) && other.lwd < |other.chains|
      modifies `lastWithDatap, `lwd
      ensures lwd == |chains| + other.lwd && lastWithDatap == (chains + other.chains)[lwd - 1]
    {
      lastWithDatap := if other.lastWithDatap == null then tail else other.lastWithDatap;
      lwd := |chains| + other.lwd;
    }

    method JoinAfter(other: EvBuffer)
      requires Shape() && other.Shape() && Apart(other) && chains != [] && last == chains[|chains| - 1]
      requires other.IsSlot(other.lastWithDatap, other.lwd) && other.lwd < |other.chains|
      modifies `last, `lastWithDatap, `totalLen, `chains, `chunks, `lwd, last`next
      ensures Shape() && chains == old(chains) + other.chains && chunks == old(chunks) + other.chunks
      ensures IsSlot(lastWithDatap, lwd) && lwd == |old(chains)| + other.lwd
      ensures last == other.last && totalLen == old(totalLen) + other.totalLen
    {
      var tail := last;
      PointAfter(tail, other);
      totalLen := totalLen + other.totalLen;
      last := other.last;
      LinkAfter(tail, other);
    }

    /** The pointer updates of PREPEND_CHAIN. */
    method JoinBefore(other: EvBuffer)
      requires Shape() && other.Shape() && Apart(other) && IsSlot(lastWithDatap, lwd) && lwd < |chains|
      requires other.chains != [] && other.last == other.chains[|other.chains| - 1]
      modifies `first, `lastWithDatap, `totalLen, `chains, `chunks, `lwd, other.last`next
      ensures Shape() && chains == other.chains + old(chains) && chunks == other.chunks + old(chunks)
      ensures IsSlot(lastWithDatap, lwd) && lwd == |other.chains| + old(lwd)
      ensures totalLen == old(totalLen) + other.totalLen
    {
      if lastWithDatap == null {
        lastWithDatap := other.last;
      }
      totalLen := totalLen + other.totalLen;
      lwd := |other.chains| + lwd;
      LinkBefore(other.last, other);
    }

    /** COPY_CHAIN: the pointer must not go on pointing into the other buffer's head. */
    method TakeAll(other: EvBuffer)
      requires other.Valid() && this != other
      modifies `first, `last, `lastWithDatap, `totalLen, `chains, `chunks, `lwd
      ensures Valid() && chains == other.chains && chunks == other.chunks && lwd == other.lwd
    {
      first := other.first;
      lastWithDatap := other.lastWithDatap;
      last := other.last;
      totalLen := other.totalLen;
      chains, chunks, lwd := other.chains, other.chunks, other.lwd;
      assert IsList(first, chains, chunks);
    }

    /** APPEND_CHAIN. */
    method AppendChain(other: EvBuffer)
      requires Valid() && other.Valid() && Apart(other) && last != null && Contents() != [] && other.Contents() != []
      modifies `last, `lastWithDatap, `totalLen, `chains, `chunks, `lwd, last`next
      ensures Linked() && Contents() == old(Contents()) + other.Contents()
      ensures Pointed() <==> old(Tight())
      ensures old(Tight()) && |other.chains| <= other.lwd + 1 ==> Tight()
      ensures chains == old(chains) + other.chains
    {
      HasData();
      other.HasData();
      FlattenConcat(chunks, other.chunks);
      JoinPointer(chunks, lwd, other.chunks, other.lwd);
      JoinAfter(other);
    }

    /** PREPEND_CHAIN. */
    method PrependChains(other: EvBuffer)
      requires Valid() && other.Valid() && Apart(other) && other.last != null && Contents() != [] && other.Contents() != []
      modifies `first, `lastWithDatap, `totalLen, `chains, `chunks, `lwd, other.last`next
      ensures Linked() && Contents() == other.Contents() + old(Contents())
      ensures Pointed() <==> |other.chains| <= other.lwd + 1
      ensures old(Tight()) ==> Tight()
      ensures chains == other.chains + old(chains)
    {
      HasData();
      other.HasData();
      FlattenConcat(other.chunks, chunks);
      JoinPointer(other.chunks, other.lwd, chunks, lwd);
      JoinBefore(other);
    }

    /** An empty buffer gets all chains of inbuf in the place of its own. */
    method MoveAll(inbuf: EvBuffer)
      requires inbuf.Valid() && this != inbuf
      modifies `first, `last, `lastWithDatap, `totalLen, `chains, `chunks, `lwd
      modifies inbuf`first, inbuf`last, inbuf`lastWithDatap, inbuf`totalLen, inbuf`chains, inbuf`chunks, inbuf`lwd
      ensures Valid() && Contents() == old(inbuf.Contents()) && chains == old(inbuf.chains)
      ensures old(inbuf.Tight()) ==> Tight()
      ensures inbuf.Valid() && inbuf.Tight() && inbuf.Contents() == [] && inbuf.chains == []
    {
      TakeAll(inbuf);
      inbuf.Zero();
      assert Shape();
    }

    method MoveBehind(inbuf: EvBuffer)
      requires Valid() && inbuf.Valid() && Apart(inbuf) && Contents() != [] && inbuf.Contents() != []
      modifies `last, `lastWithDatap, `totalLen, `chains, `chunks, `lwd, Nodes(chains)`next
      modifies inbuf`first, inbuf`last, inbuf`lastWithDatap, inbuf`totalLen, inbuf`chains, inbuf`chunks, inbuf`lwd
      ensures Linked() && Contents() == old(Contents()) + old(inbuf.Contents())
      ensures Pointed() <==> old(Tight())
      ensures old(Tight()) && old(inbuf.Tight()) ==> Tight()
      ensures chains == old(chains) + old(inbuf.chains)
      ensures inbuf.Valid() && inbuf.Tight() && inbuf.Contents() == [] && inbuf.chains == []
    {
      HasData();
      AppendChain(inbuf);
      inbuf.Zero();
      assert Shape();
    }

    method MoveInFront(inbuf: EvBuffer)
      requires Valid() && inbuf.Valid() && Apart(inbuf) && Contents() != [] && inbuf.Contents() != []
      modifies `first, `lastWithDatap, `totalLen, `chains, `chunks, `lwd, Nodes(inbuf.chains)`next
      modifies inbuf`first, inbuf`last, inbuf`lastWithDatap, inbuf`totalLen, inbuf`chains, inbuf`chunks, inbuf`lwd
      ensures Linked() && Contents() == old(inbuf.Contents()) + old(Contents())
      ensures Pointed() <==> old(inbuf.Tight())
      ensures old(Tight()) ==> Tight()
      ensures chains == old(inbuf.chains) + old(chains)
      ensures inbuf.Valid() && inbuf.Tight() && inbuf.Contents() == [] && inbuf.chains == []
    {
      inbuf.HasData();
      PrependChains(inbuf);
      inbuf.Zero();
      assert Shape();
    }

    /** evbuffer_add_buffer. */
    method AddBuffer(inbuf: EvBuffer) returns (result: int)
      requires Valid() && inbuf.Valid() && (this == inbuf || Apart(inbuf))
      modifies `first, `last, `lastWithDatap, `totalLen, `chains, `chunks, `lwd, inbuf`first, inbuf`last, inbuf`lastWithDatap, inbuf`totalLen, inbuf`chains, inbuf`chunks, inbuf`lwd
      modifies Nodes(chains)`next
      ensures var moves := old(inbuf.totalLen) > 0 && this != inbuf;
              var frozen := freezeEnd || inbuf.freezeStart;
              && result == (if moves && frozen then -1 else 0)
              && (if moves && !frozen then
                   && Contents() == old(Contents()) + old(inbuf.Contents())
                   && inbuf.Contents() == [] && inbuf.chains == []
                   && (Pointed() <==> old(Tight()) || old(Contents()) == [])
                   && (old(Tight()) && old(inbuf.Tight()) ==> Tight())
                 else
                   && Contents() == old(Contents()) && inbuf.Contents() == old(inbuf.Contents())
                   && Pointed() && (Tight() <==> old(Tight())))
      ensures Linked() && inbuf.Linked() && (this != inbuf ==> Apart(inbuf) && inbuf.Pointed())
      ensures old(inbuf.Tight()) && this != inbuf ==> inbuf.Tight()
      ensures forall c :: c in chains ==> c in old(chains) || c in old(inbuf.chains)
      ensures forall c :: c in inbuf.chains ==> c in old(inbuf.chains) || this == inbuf
    {
      if inbuf.totalLen == 0 || this == inbuf {
        return 0;
      }
      if freezeEnd || inbuf.freezeStart {
        return -1;
      }
      if totalLen == 0 {
        MoveAll(inbuf);
      } else {
        MoveBehind(inbuf);
      }
      return 0;
    }

    /** evbuffer_prepend_buffer. */
    method PrependBuffer(inbuf: EvBuffer) returns (result: int)
      requires Valid() && inbuf.Valid() && (this == inbuf || Apart(inbuf))
      modifies `first, `last, `lastWithDatap, `totalLen, `chains, `chunks, `lwd, inbuf`first, inbuf`last, inbuf`lastWithDatap, inbuf`totalLen, inbuf`chains, inbuf`chunks, inbuf`lwd
      modifies Nodes(inbuf.chains)`next
      ensures var moves := old(inbuf.totalLen) > 0 && this != inbuf;
              var frozen := freezeStart || inbuf.freezeStart;
              && result == (if moves && frozen then -1 else 0)
              && (if moves && !frozen then
                   && Contents() == old(inbuf.Contents()) + old(Contents())
                   && inbuf.Contents() == [] && inbuf.chains == []
                   && (Pointed() <==> old(inbuf.Tight()) || old(Contents()) == [])
                   && (old(Tight()) && old(inbuf.Tight()) ==> Tight())
                 else
                   && Contents() == old(Contents()) && inbuf.Contents() == old(inbuf.Contents())
                   && Pointed() && (Tight() <==> old(Tight())))
      ensures Linked() && inbuf.Linked() && (this != inbuf ==> Apart(inbuf) && inbuf.Pointed())
      ensures old(inbuf.Tight()) && this != inbuf ==> inbuf.Tight()
      ensures forall c :: c in chains ==> c in old(chains) || c in old(inbuf.chains)
      ensures forall c :: c in inbuf.chains ==> c in old(inbuf.chains) || this == inbuf
    {
      if inbuf.totalLen == 0 || this == inbuf {
        return 0;
      }
      if freezeStart || inbuf.freezeStart {
        return -1;
      }
      if totalLen == 0 {
        MoveAll(inbuf);
      } else {
        MoveInFront(inbuf);
      }
      return 0;
    }

    /** evbuffer_pullup's copying loop over the chains it frees, from chain k0 on. */
    method PullScan(start: Chain?, ghost k0: nat, need: nat)
      returns (chain: Chain?, data: seq<Byte>, left: nat, removedLast: bool, removedSlot: bool, ghost k: nat)
      requires Shape() && IsSlot(lastWithDatap, lwd) && lwd < |chains|
      requires k0 <= |chains| && start == (if k0 < |chains| then chains[k0] else null)
      requires need <= |Flatten(chunks[k0..])|
      ensures k0 <= k <= |chains| && chain == (if k < |chains| then chains[k] else null)
      ensures if k < |chains| then left < |chunks[k]| else left == 0
      ensures |data| == need
      ensures data == Flatten(chunks[k0..k]) + (if k < |chains| then chunks[k][..left] else [])
      ensures removedLast <==> k0 <= lwd < k
      ensures removedSlot <==> k0 < lwd <= k
    {
      chain, data, left, k := start, [], need, k0;
      removedLast, removedSlot := false, false;
      var lastWithData := Deref(lastWithDatap);
      assert chunks[k0..k0] == [];
      while chain != null && left >= chain.off
        invariant k0 <= k <= |chains| && chain == (if k < |chains| then chains[k] else null)
        invariant data == Flatten(chunks[k0..k]) && left + |data| == need
        invariant (removedLast <==> k0 <= lwd < k) && (removedSlot <==> k0 < lwd <= k)
        decreases |chains| - k
      {
        PullStep(k);
        SnocSlice(chunks, k0, k);
        var bytes := chain.Bytes(chain.off, chunks[k]);
        data, left := data + bytes, left - chain.off;
        if chain == lastWithData {
          removedLast := true;
        }
        if chain == lastWithDatap {
          removedSlot := true;
        }
        chain, k := chain.next, k + 1;
      }
      if chain != null {
        assert chain.Holds(chunks[k]);
        var bytes := chain.Bytes(left, chunks[k]);
        data := data + bytes;
      } else {
        assert chunks[k0..k] == chunks[k0..];
      }
    }

    lemma PullStep(k: nat)
      requires Shape() && IsSlot(lastWithDatap, lwd) && lwd < |chains| && k < |chains|
      ensures chains[k].Holds(chunks[k])
      ensures chains[k] == Deref(lastWithDatap) <==> k == lwd
      ensures chains[k] == lastWithDatap <==> k + 1 == lwd
      ensures chains[k].next == if k + 1 < |chains| then chains[k + 1] else null
    {
    }

    /** tmp->next = chain: the first chain, then the list from chain k on. */
    method CutMiddle(chain: Chain?, ghost k: nat)
      requires Shape() && 0 < k <= |chains| && first != null && chain == if k < |chains| then chains[k] else null
      modifies `chains, `chunks, first`next
      ensures Shape() && chains == [chains[0]] + old(chains)[k..] && chunks == [old(chunks)[0]] + old(chunks)[k..]
    {
      first.next := chain;
      chains, chunks := [chains[0]] + chains[k..], [chunks[0]] + chunks[k..];
    }

    /** evbuffer_pullup's last steps: the pointer and the tail once `first` holds the pulled bytes. */
    method PullRepoint(chain: Chain?, removedLast: bool, removedSlot: bool, ghost k0: nat, ghost k: nat, ghost was: seq<Chain>)
      requires first != null && k0 <= 1 <= k <= |was| && chains == [first] + was[k..]
      requires lwd < |was| && lastWithDatap == if lwd == 0 then null else was[lwd - 1]
      requires (removedLast <==> k0 <= lwd < k) && (removedSlot <==> k0 < lwd <= k)
      requires k < |was| ==> k <= lwd && first.next == was[k] && was[k].off != 0
      requires k0 == 1 ==> first == was[0] && 0 < lwd
      requires chain == (if k < |was| then was[k] else null)
      requires last == was[|was| - 1]
      modifies `last, `lastWithDatap, `lwd
      ensures IsSlot(lastWithDatap, lwd) && last == chains[|chains| - 1]
      ensures lwd == if old(lwd) < k then 0 else old(lwd) - k + 1
    {
      if chain == null {
        last := first;
      }
      if removedLast {
        lastWithDatap := null;
      } else if removedSlot {
        lastWithDatap := if first.next != null && first.next.off != 0 then first else null;
      }
      lwd := if lwd < k then 0 else lwd - k + 1;
    }

    /** What is pulled behind the first k0 chains, and the list it leaves. */
    method PullPlan(start: Chain?, ghost k0: nat, need: nat)
      returns (chain: Chain?, data: seq<Byte>, left: nat, removedLast: bool, removedSlot: bool, ghost k: nat)
      requires Valid() && lwd < |chains|
      requires k0 <= |chains| && start == (if k0 < |chains| then chains[k0] else null)
      requires |Flatten(chunks[..k0])| + need <= |Contents()| && (k0 == 0 ==> |chunks[0]| <= need)
      ensures 0 < k && k0 <= k <= |chains| && chain == (if k < |chains| then chains[k] else null)
      ensures (k < |chains| ==> left < |chunks[k]|) && |data| == need
      ensures (removedLast <==> k0 <= lwd < k) && (removedSlot <==> k0 < lwd <= k)
      ensures k < |chains| ==> k <= lwd
      ensures var s := PulledList(chunks, k, left, Flatten(chunks[..k0]) + data);
              Flatten(s) == Contents() && LastWithData(s, if lwd < k then 0 else lwd - k + 1)
    {
      FlattenCut(chunks, k0);
      chain, data, left, removedLast, removedSlot, k := PullScan(start, k0, need);
      assert chunks[0..0] == [];
      SplitAt(chunks, k0, k);
      PullupKeeps(chunks, lwd, k, left, Flatten(chunks[..k0]) + data);
    }

    /** evbuffer_pullup when the first chain has room for the rest. */
    method PullIntoFirst(size: nat)
      requires Valid() && first != null && first.off < size <= totalLen && first.buffer.Length - first.misalign >= size
      modifies `last, `lastWithDatap, `chains, `chunks, `lwd
      modifies Nodes(chains)`next, Nodes(chains)`off, Nodes(chains)`misalign, Buffers(chains)
      ensures Valid() && Contents() == old(Contents()) && |chunks[0]| == size
      ensures (old(Tight()) ==> Tight()) && forall c :: c in chains ==> c in old(chains)
    {
      MoreThanFirst();
      assert chunks[..1] == [chunks[0]];
      FlattenOne(chunks[0]);
      var chain, data, left, removedLast, removedSlot, k := PullPlan(first.next, 1, size - first.off);
      FinishIntoFirst(chain, data, left, removedLast, removedSlot, k);
    }

    method FinishIntoFirst(chain: Chain?, data: seq<Byte>, left: nat, removedLast: bool, removedSlot: bool, ghost k: nat)
      requires Linked() && first != null && 0 < lwd < |chains| && |data| <= first.SpaceLen()
      requires 0 < k <= |chains| && chain == (if k < |chains| then chains[k] else null)
      requires k < |chains| ==> left < |chunks[k]| && k <= lwd
      requires (removedLast <==> 1 <= lwd < k) && (removedSlot <==> 1 < lwd <= k)
      modifies `last, `lastWithDatap, `chains, `chunks, `lwd
      modifies Nodes(chains)`next, Nodes(chains)`off, Nodes(chains)`misalign, Buffers(chains)
      ensures Shape() && chains == [first] + old(chains)[k..]
      ensures chunks == PulledList(old(chunks), k, left, old(chunks)[0] + data)
      ensures IsSlot(lastWithDatap, lwd) && lwd == (if old(lwd) < k then 0 else old(lwd) - k + 1)
      ensures last == chains[|chains| - 1]
    {
      ghost var was := chains;
      LinkIntoFirst(chain, k, data, left);
      PullRepoint(chain, removedLast, removedSlot, 1, k, was);
    }

    /** evbuffer_pullup into a new chain. */
    method PullIntoNew(size: nat)
      requires Valid() && first != null && first.off < size <= totalLen
      modifies `first, `last, `lastWithDatap, `chains, `chunks, `lwd
      modifies Nodes(chains)`off, Nodes(chains)`misalign
      ensures Valid() && Contents() == old(Contents()) && chains != [] && |chunks[0]| == size
      ensures (old(Tight()) ==> Tight()) && Grown()
    {
      MoreThanFirst();
      assert chunks[..0] == [];
      var chain, data, left, removedLast, removedSlot, k := PullPlan(first, 0, size);
      assert [] + data == data;
      var tmp := NewChainWith(size, data);
      FinishIntoNew(tmp, chain, data, left, removedLast, removedSlot, k);
    }

    method FinishIntoNew(tmp: Chain, chain: Chain?, data: seq<Byte>, left: nat, removedLast: bool, removedSlot: bool, ghost k: nat)
      requires Linked() && lwd < |chains| && tmp.Holds(data) && New(tmp, chains)
      requires 0 < k <= |chains| && chain == (if k < |chains| then chains[k] else null)
      requires k < |chains| ==> left < |chunks[k]| && k <= lwd
      requires (removedLast <==> 0 <= lwd < k) && (removedSlot <==> 0 < lwd <= k)
      modifies `first, `last, `lastWithDatap, `chains, `chunks, `lwd, tmp`next
      modifies Nodes(chains)`off, Nodes(chains)`misalign
      ensures Shape() && chains == [tmp] + old(chains)[k..]
      ensures chunks == PulledList(old(chunks), k, left, data)
      ensures IsSlot(lastWithDatap, lwd) && lwd == (if old(lwd) < k then 0 else old(lwd) - k + 1)
      ensures last == chains[|chains| - 1]
    {
      ghost var was := chains;
      LinkIntoNew(tmp, chain, k, data, left);
      PullRepoint(chain, removedLast, removedSlot, 0, k, was);
    }

    method LinkIntoNew(tmp: Chain, chain: Chain?, ghost k: nat, data: seq<Byte>, left: nat)
      requires Shape() && k <= |chains| && chain == if k < |chains| then chains[k] else null
      requires tmp.Holds(data) && New(tmp, chains) && (k < |chains| ==> left < |chunks[k]|)
      modifies `first, `chains, `chunks, tmp`next, Nodes(chains)`off, Nodes(chains)`misalign
      ensures Shape() && chains == [tmp] + old(chains)[k..]
      ensures chunks == PulledList(old(chunks), k, left, data)
      ensures k < |old(chains)| ==> tmp.next == old(chains)[k] && old(chains)[k].off != 0
    {
      if chain != null {
        SkipAt(chain, k, left);
        assert chain.Holds(chunks[k]);
      }
      CutFront(chain, k);
      PushFront(tmp, data);
    }

    /** evbuffer_pullup. */
    method Pullup(size: int) returns (ok: bool)
      requires Valid()
      modifies `first, `last, `lastWithDatap, `totalLen, `chains, `chunks, `lwd
      modifies Nodes(chains)`next, Nodes(chains)`off, Nodes(chains)`misalign, Buffers(chains)
      ensures Valid() && Contents() == old(Contents()) && Grown() && (old(Tight()) ==> Tight())
      ensures var want := if size < 0 then |old(Contents())| else size;
              && (ok <==> 0 < want <= |old(Contents())|)
              && (ok ==> first != null && chains != [] && first.Holds(chunks[0])
                         && want <= |chunks[0]| && chunks[0][..want] == Contents()[..want])
    {
      var want := if size < 0 then totalLen else size;
      if want == 0 || want > totalLen {
        return false;
      }
      HasData();
      if first.off >= want {
      } else if first.buffer.Length - first.misalign >= want {
        PullIntoFirst(want);
      } else {
        PullIntoNew(want);
      }
      assert first.Holds(chunks[0]);
      return true;
    }

    method LinkIntoFirst(chain: Chain?, ghost k: nat, data: seq<Byte>, left: nat)
      requires Shape() && 0 < k <= |chains| && first != null && chain == if k < |chains| then chains[k] else null
      requires |data| <= first.SpaceLen() && (k < |chains| ==> left < |chunks[k]|)
      modifies `chains, `chunks
      modifies Nodes(chains)`next, Nodes(chains)`off, Nodes(chains)`misalign, Buffers(chains)
      ensures Shape() && chains == [first] + old(chains)[k..]
      ensures chunks == PulledList(old(chunks), k, left, old(chunks)[0] + data)
      ensures k < |old(chains)| ==> first.next == old(chains)[k] && old(chains)[k].off != 0
    {
      if chain != null {
        SkipAt(chain, k, left);
        assert chain.Holds(chunks[k]);
      }
      WriteAt(first, 0, data);
      CutMiddle(chain, k);
    }

    /** More bytes than the first chain has: another chain has data. */
    lemma MoreThanFirst()
      requires Valid() && first != null && first.off < totalLen
      ensures 0 < lwd < |chains| && first.Holds(chunks[0])
      ensures |Flatten(chunks[1..])| == totalLen - first.off
      ensures first.next == if 1 < |chains| then chains[1] else null
    {
      assert chains[0].Holds(chunks[0]);
      if lwd == 0 {
        FlattenEmpty(chunks[1..]);
      }
    }

    /** advance_last_with_data. */
    method AdvanceLastWithData()
      requires Shape() && IsSlot(lastWithDatap, lwd) && lwd < |chains|
      modifies `lastWithDatap, `lwd
      ensures Shape() && IsSlot(lastWithDatap, lwd) && old(lwd) <= lwd < |chains|
      ensures forall i :: old(lwd) < i <= lwd ==> chunks[i] != []
      ensures lwd + 1 < |chains| ==> chunks[lwd + 1] == []
    {
      AdvanceStep();
      while Deref(lastWithDatap).next != null && Deref(lastWithDatap).next.off != 0
        invariant IsSlot(lastWithDatap, lwd) && old(lwd) <= lwd < |chains|
        invariant Deref(lastWithDatap) == chains[lwd]
        invariant chains[lwd].next == if lwd + 1 < |chains| then chains[lwd + 1] else null
        invariant lwd + 1 < |chains| ==> chains[lwd + 1].off == |chunks[lwd + 1]|
        invariant forall i :: old(lwd) < i <= lwd ==> chunks[i] != []
        decreases |chains| - lwd
      {
        lastWithDatap, lwd := Deref(lastWithDatap), lwd + 1;
        AdvanceStep();
      }
    }

    lemma AdvanceStep()
      requires Shape() && IsSlot(lastWithDatap, lwd) && lwd < |chains|
      ensures Deref(lastWithDatap) == chains[lwd]
      ensures chains[lwd].next == if lwd + 1 < |chains| then chains[lwd + 1] else null
      ensures lwd + 1 < |chains| ==> chains[lwd + 1].off == |chunks[lwd + 1]|
    {
      if lwd + 1 < |chains| {
        assert chains[lwd + 1].Holds(chunks[lwd + 1]);
      }
    }

    /** *chainp = tmp: a chain with the same bytes takes the place of chain k. */
    method Replace(slot: Chain?, ghost k: nat, chain: Chain, tmp: Chain)
      requires Linked() && IsSlot(slot, k) && lwd <= k < |chains| && chain == chains[k]
      requires tmp.Holds(chunks[k]) && New(tmp, chains)
      modifies `first, `last, `chains, tmp`next, (if slot == null then {} else {slot})`next
      ensures Linked() && chains == old(chains)[k := tmp]
    {
      if slot == null {
        first := tmp;
      } else {
        slot.next := tmp;
      }
      if last == chain {
        last := tmp;
      }
      tmp.next := chain.next;
      chains := chains[k := tmp];
    }

    /** Cut the list in two behind `previous`, keeping the second part. */
    method Detach(previous: Chain, chain: Chain, ghost k: nat)
      requires Shape() && 0 < k < |chains| && IsSlot(previous, k) && chain == chains[k]
      modifies `first, `chains, `chunks, previous`next
      ensures Shape() && chains == old(chains)[k..] && chunks == old(chunks)[k..]
      ensures IsList(old(first), old(chains)[..k], old(chunks)[..k])
    {
      previous.next := null;
      first := chain;
      chains, chunks := chains[k..], chunks[k..];
    }

    /** Put the list cs into our end slot. */
    method Attach(slot: Chain?, head: Chain, ghost cs: seq<Chain>, ghost ck: seq<seq<Byte>>)
      requires Shape() && IsSlot(slot, |chains|) && IsList(head, cs, ck) && cs != []
      requires Separate(chains, cs)
      modifies `first, `chains, `chunks, (if slot == null then {} else {slot})`next
      ensures Shape() && chains == old(chains) + cs && chunks == old(chunks) + ck
    {
      if slot == null {
        first := head;
      } else {
        slot.next := head;
      }
      chains, chunks := chains + cs, chunks + ck;
    }

    /** evbuffer_free_trailing_empty_chains: the end slot once the empty tail is gone. */
    method FreeTrailingEmptyChains() returns (slot: Chain?)
      requires Shape() && Pointed() && IsSlot(lastWithDatap, lwd) && (lwd == |chains| ==> lwd == 0)
      modifies `first, `chains, `chunks, Nodes(chains)`next
      ensures Shape() && IsSlot(slot, |chains|) && chains <= old(chains)
      ensures Contents() == old(Contents()) && forall i :: 0 <= i < |chunks| ==> chunks[i] != []
      ensures IsSlot(lastWithDatap, lwd) && (lwd < |chains| || lwd == |chains| == 0)
    {
      var s, k := FirstVictim();
      slot := s;
      VictimIsFirstEmpty(chunks, lwd);
      DropEmptyTail(chunks, k);
      CutTail(slot, k);
    }

    /** The part of evbuffer_remove_buffer that links whole chains, head to `previous`, to our end. */
    method TakeList(head: Chain, previous: Chain, nread: nat, ghost cs: seq<Chain>, ghost ck: seq<seq<Byte>>)
      requires Valid() && IsList(head, cs, ck) && cs != [] && previous == cs[|cs| - 1]
      requires Separate(chains, cs)
      requires nread == |Flatten(ck)| && forall i :: 0 <= i < |ck| ==> ck[i] != []
      modifies `first, `last, `lastWithDatap, `totalLen, `chains, `chunks, `lwd, Nodes(chains)`next
      ensures Valid() && Tight() && Contents() == old(Contents()) + Flatten(ck)
      ensures forall c :: c in chains ==> c in old(chains) || c in cs
    {
      last, totalLen := previous, totalLen + nread;
      LinkList(head, cs, ck);
    }

    method LinkList(head: Chain, ghost cs: seq<Chain>, ghost ck: seq<seq<Byte>>)
      requires Shape() && Pointed() && IsSlot(lastWithDatap, lwd) && (lwd == |chains| ==> lwd == 0)
      requires IsList(head, cs, ck) && cs != [] && Separate(chains, cs)
      requires forall i :: 0 <= i < |ck| ==> ck[i] != []
      modifies `first, `lastWithDatap, `chains, `chunks, `lwd, Nodes(chains)`next
      ensures Shape() && IsSlot(lastWithDatap, lwd) && lwd + 1 == |chains| && chains[|chains| - 1] == cs[|cs| - 1]
      ensures Pointed() && Contents() == old(Contents()) + Flatten(ck)
      ensures forall c :: c in chains ==> c in old(chains) || c in cs
    {
      AttachList(head, cs, ck);
      PointAtEnd();
    }

    method AttachList(head: Chain, ghost cs: seq<Chain>, ghost ck: seq<seq<Byte>>)
      requires Shape() && Pointed() && IsSlot(lastWithDatap, lwd) && (lwd == |chains| ==> lwd == 0)
      requires IsList(head, cs, ck) && cs != [] && Separate(chains, cs)
      requires forall i :: 0 <= i < |ck| ==> ck[i] != []
      modifies `first, `chains, `chunks, Nodes(chains)`next
      ensures Shape() && IsSlot(lastWithDatap, lwd) && lwd < |chains| && chains[|chains| - 1] == cs[|cs| - 1]
      ensures Contents() == old(Contents()) + Flatten(ck)
      ensures forall i :: 0 <= i < |chunks| ==> chunks[i] != []
      ensures forall c :: c in chains ==> c in old(chains) || c in cs
    {
      var slot := FreeTrailingEmptyChains();
      FlattenConcat(chunks, ck);
      Attach(slot, head, cs, ck);
    }

    method PointAtEnd()
      requires Shape() && IsSlot(lastWithDatap, lwd) && lwd < |chains|
      requires forall i :: 0 <= i < |chunks| ==> chunks[i] != []
      modifies `lastWithDatap, `lwd
      ensures IsSlot(lastWithDatap, lwd) && lwd + 1 == |chains| && Pointed()
    {
      AdvanceLastWithData();
      FullPointer(chunks, lwd);
    }

    /** The first n bytes hold a whole chain of ours. */
    ghost predicate WholeIn(n: nat)
      reads `chunks
    {
      chunks != [] && |chunks[0]| <= n
    }

    lemma WholePrefix(k: nat, n: nat, remaining: nat)
      requires Shape() && k < |chains| && remaining < |chunks[k]| && remaining + |Flatten(chunks[..k])| == n
      ensures k > 0 <==> WholeIn(n)
    {
      if k > 0 {
        assert chunks[..k] == [chunks[0]] + chunks[1..k];
        FlattenConcat([chunks[0]], chunks[1..k]);
        FlattenOne(chunks[0]);
      } else {
        assert chunks[..0] == [];
      }
    }

    /** evbuffer_remove_buffer when some bytes stay: whole chains are linked over, the rest is copied. */
    method RemoveSome(dst: EvBuffer, datlen: nat) returns (done: bool)
      requires Valid() && dst.Valid() && Apart(dst) && datlen < totalLen && !dst.freezeEnd
      modifies `first, `last, `lastWithDatap, `totalLen, `chains, `chunks, `lwd, dst`first, dst`last, dst`lastWithDatap, dst`totalLen, dst`chains, dst`chunks, dst`lwd
      modifies Nodes(chains)`next, Nodes(chains)`off, Nodes(chains)`misalign, Buffers(chains)
      modifies Nodes(dst.chains)`next, Nodes(dst.chains)`off, Nodes(dst.chains)`misalign, Buffers(dst.chains)
      ensures done <==> old(WholeIn(datlen)) || !old(dst.AddAsserts(datlen))
      ensures done ==> Valid() && (old(Tight()) ==> Tight()) && Contents() == old(Contents())[datlen..]
      ensures done ==> dst.Linked() && dst.Contents() == old(dst.Contents()) + old(Contents())[..datlen]
      ensures done ==> (dst.Pointed() <==> old(WholeIn(datlen)) || old(dst.AddPoints(datlen)))
      ensures old(WholeIn(datlen)) || old(dst.Tight()) ==> dst.Tight()
      ensures Apart(dst)
      ensures forall c :: c in chains ==> c in old(chains)
      ensures forall c :: c in dst.chains ==> c in old(dst.chains) || c in old(chains) || (fresh(c) && fresh(c.buffer))
    {
      hide Separate, Shape, Flatten, LastWithData, AddAsserts, AddPoints, WholeIn;
      var chain, previous, remaining, k := DrainPlan(datlen);
      WholePrefix(k, datlen, remaining);
      assert k == 0 ==> chunks[..k] == [] && remaining == datlen by { FlattenEmpty([]); }
      done := MoveBytes(dst, chain, previous, remaining, datlen - remaining, k);
      assert IsSlot(lastWithDatap, lwd);
    }

    method MoveBytes(dst: EvBuffer, chain: Chain, previous: Chain?, n: nat, nread: nat, ghost k: nat) returns (done: bool)
      requires Shape() && k < |chains| && IsSlot(previous, k) && chain == chains[k] && n < |chunks[k]|
      requires forall i :: 0 <= i < k ==> chunks[i] != []
      requires dst.Valid() && Apart(dst) && nread == |Flatten(chunks[..k])| && !dst.freezeEnd
      modifies `first, `chains, `chunks, dst`first, dst`last, dst`lastWithDatap, dst`totalLen, dst`chains, dst`chunks, dst`lwd
      modifies Nodes(chains)`next, Nodes(chains)`off, Nodes(chains)`misalign, Buffers(chains)
      modifies Nodes(dst.chains)`next, Nodes(dst.chains)`off, Nodes(dst.chains)`misalign, Buffers(dst.chains)
      ensures done <==> k > 0 || !old(dst.AddAsserts(n))
      ensures Shape() && chains == old(chains)[k..]
      ensures done ==> chunks == old(chunks)[k..][0 := old(chunks)[k][n..]]
      ensures done ==> dst.Linked() && (dst.Pointed() <==> k > 0 || old(dst.AddPoints(n)))
      ensures done ==> dst.Contents() == old(dst.Contents()) + (Flatten(old(chunks)[..k]) + old(chunks)[k][..n])
      ensures (k > 0 || old(dst.Tight()) ==> dst.Tight()) && Apart(dst)
      ensures forall c :: c in dst.chains ==> c in old(dst.chains) || c in old(chains) || (fresh(c) && fresh(c.buffer))
    {
      hide Separate, Distinct, LastWithData, AddAsserts;
      assert chunks[..0] == [];
      if previous != null {
        MoveChains(dst, chain, previous, nread, k);
      }
      done := MoveRest(dst, chain, n);
    }

    method MoveRest(dst: EvBuffer, chain: Chain, n: nat) returns (done: bool)
      requires Shape() && chains != [] && chain == chains[0] && n < |chunks[0]|
      requires dst.Valid() && Apart(dst) && !dst.freezeEnd
      modifies `chunks, chain`off, chain`misalign, dst`first, dst`last, dst`lastWithDatap, dst`totalLen, dst`chains, dst`chunks, dst`lwd
      modifies Nodes(dst.chains)`next, Nodes(dst.chains)`off, Nodes(dst.chains)`misalign, Buffers(dst.chains)
      ensures (done <==> !old(dst.AddAsserts(n))) && Shape()
      ensures done ==> chunks == old(chunks)[0 := old(chunks)[0][n..]]
      ensures done ==> dst.Linked() && (dst.Pointed() <==> old(dst.AddPoints(n)))
      ensures done ==> dst.Contents() == old(dst.Contents()) + old(chunks)[0][..n]
      ensures (old(dst.Tight()) ==> done && dst.Tight()) && Apart(dst) && dst.Grown()
    {
      assert chain.Holds(chunks[0]);
      var bytes := chain.Bytes(n, chunks[0]);
      done := AddTo(dst, bytes);
      if done {
        SkipFirst(dst, chain, n);
      }
    }

    /** The copied bytes leave the first chain; the other buffer is left alone. */
    method SkipFirst(dst: EvBuffer, chain: Chain, n: nat)
      requires Shape() && chains != [] && chain == chains[0] && n < |chunks[0]| && dst.Linked() && Apart(dst)
      modifies `chunks, chain`off, chain`misalign
      ensures Shape() && chunks == old(chunks)[0 := old(chunks)[0][n..]] && dst.Linked()
    {
      SkipAt(chain, 0, n);
      assert dst.Shape();
    }

    /** evbuffer_add on another buffer leaves this one alone. */
    method AddTo(dst: EvBuffer, bytes: seq<Byte>) returns (done: bool)
      requires Shape() && dst.Valid() && Apart(dst) && !dst.freezeEnd
      modifies dst`first, dst`last, dst`lastWithDatap, dst`totalLen, dst`chains, dst`chunks, dst`lwd
      modifies Nodes(dst.chains)`next, Nodes(dst.chains)`off, Nodes(dst.chains)`misalign, Buffers(dst.chains)
      ensures Shape() && Apart(dst) && dst.Grown()
      ensures done <==> !old(dst.AddAsserts(|bytes|))
      ensures done ==> dst.Linked() && dst.Contents() == old(dst.Contents()) + bytes
      ensures done ==> (dst.Pointed() <==> old(dst.AddPoints(|bytes|)))
      ensures old(dst.Tight()) ==> done && dst.Tight()
    {
      var result;
      result, done := dst.Add(bytes);
    }

    method MoveChains(dst: EvBuffer, chain: Chain, previous: Chain, nread: nat, ghost k: nat)
      requires Shape() && 0 < k < |chains| && IsSlot(previous, k) && chain == chains[k]
      requires forall i :: 0 <= i < k ==> chunks[i] != []
      requires dst.Valid() && Apart(dst) && nread == |Flatten(chunks[..k])|
      modifies `first, `chains, `chunks, previous`next
      modifies dst`first, dst`last, dst`lastWithDatap, dst`totalLen, dst`chains, dst`chunks, dst`lwd, Nodes(dst.chains)`next
      ensures Shape() && chains == old(chains)[k..] && chunks == old(chunks)[k..]
      ensures dst.Valid() && dst.Tight() && dst.Contents() == old(dst.Contents()) + Flatten(old(chunks)[..k])
      ensures Apart(dst)
      ensures forall c :: c in dst.chains ==> c in old(dst.chains) || c in old(chains)
    {
      var head := first;
      ghost var cs, ck := chains[..k], chunks[..k];
      ApartAfter(dst.chains, chains, k);
      Detach(previous, chain, k);
      assert dst.Valid();
      GiveList(dst, head, previous, nread, cs, ck);
    }

    /** Linking a detached list into another buffer leaves this one alone. */
    method GiveList(dst: EvBuffer, head: Chain, previous: Chain, nread: nat, ghost cs: seq<Chain>, ghost ck: seq<seq<Byte>>)
      requires Shape() && Apart(dst) && Separate(cs, chains)
      requires dst.Valid() && IsList(head, cs, ck) && cs != [] && previous == cs[|cs| - 1]
      requires Separate(dst.chains, cs)
      requires nread == |Flatten(ck)| && forall i :: 0 <= i < |ck| ==> ck[i] != []
      modifies dst`first, dst`last, dst`lastWithDatap, dst`totalLen, dst`chains, dst`chunks, dst`lwd, Nodes(dst.chains)`next
      ensures Shape() && Apart(dst)
      ensures dst.Valid() && dst.Tight() && dst.Contents() == old(dst.Contents()) + Flatten(ck)
      ensures forall c :: c in dst.chains ==> c in old(dst.chains) || c in cs
    {
      dst.TakeList(head, previous, nread, cs, ck);
    }

    /** evbuffer_remove_buffer goes on to evbuffer_add with all the bytes it is to move. */
    ghost predicate OnlyCopies(dst: EvBuffer, datlen: nat)
      reads `totalLen, `chunks
    {
      this != dst && 0 < datlen < totalLen && !WholeIn(datlen)
    }

    /** evbuffer_remove_buffer leaves the last_with_datap of dst right. */
    ghost predicate RemovePoints(dst: EvBuffer, datlen: nat)
      reads `totalLen, `chunks, dst, dst.last
    {
      || this == dst || datlen == 0 || totalLen == 0
      || (if datlen >= totalLen then dst.Tight() || dst.Contents() == [] else WholeIn(datlen) || dst.AddPoints(datlen))
    }

    /** evbuffer_remove_buffer: move the first datlen bytes, or all, to the end of dst; not `done` where an assertion fails. */
    method RemoveBuffer(dst: EvBuffer, datlen: nat) returns (result: int, done: bool)
      requires Valid() && dst.Valid() && (this == dst || Apart(dst))
      modifies `first, `last, `lastWithDatap, `totalLen, `chains, `chunks, `lwd, dst`first, dst`last, dst`lastWithDatap, dst`totalLen, dst`chains, dst`chunks, dst`lwd
      modifies Nodes(chains)`next, Nodes(chains)`off, Nodes(chains)`misalign, Buffers(chains)
      modifies Nodes(dst.chains)`next, Nodes(dst.chains)`off, Nodes(dst.chains)`misalign, Buffers(dst.chains)
      ensures var frozen := dst.freezeEnd || freezeStart;
              done <==> frozen || !old(OnlyCopies(dst, datlen)) || !old(dst.AddAsserts(datlen))
      ensures var asked := datlen > 0 && this != dst;
              var frozen := dst.freezeEnd || freezeStart;
              var n := if !asked || frozen then 0 else if datlen < old(totalLen) then datlen else old(totalLen);
              done ==>
              && result == (if asked && frozen then -1 else n)
              && (this != dst ==> Valid() && Contents() == old(Contents())[n..])
              && dst.Linked() && dst.Contents() == old(dst.Contents()) + old(Contents())[..n]
              && (dst.Pointed() <==> frozen || old(RemovePoints(dst, datlen)))
      ensures old(dst.Tight()) ==> done && dst.Valid() && (old(Tight()) ==> Tight() && dst.Tight())
      ensures this != dst ==> Apart(dst)
      ensures forall c :: c in chains ==> c in old(chains)
      ensures forall c :: c in dst.chains ==> c in old(dst.chains) || c in old(chains) || (fresh(c) && fresh(c.buffer))
    {
      hide Separate, LastWithData, Flatten, IsSlot, Shape, AddAsserts, AddPoints, WholeIn;
      if datlen == 0 || this == dst {
        return 0, true;
      }
      if dst.freezeEnd || freezeStart {
        return -1, true;
      }
      if datlen >= totalLen {
        result := totalLen;
        TakenWhole(dst);
        done := true;
      } else {
        if dst.Tight() {
          TightAdds(dst, datlen);
        }
        done := RemoveSome(dst, datlen);
        result := datlen;
      }
    }

    lemma TightAdds(dst: EvBuffer, n: nat)
      requires dst.Valid() && dst.Tight()
      ensures !dst.AddAsserts(n) && dst.AddPoints(n)
    {
      dst.TightIsSolid();
    }

    /** evbuffer_add_buffer onto dst, seen from the source. */
    method TakenWhole(dst: EvBuffer)
      requires Valid() && dst.Valid() && Apart(dst) && !dst.freezeEnd && !freezeStart
      modifies `first, `last, `lastWithDatap, `totalLen, `chains, `chunks, `lwd, dst`first, dst`last, dst`lastWithDatap, dst`totalLen, dst`chains, dst`chunks, dst`lwd
      modifies Nodes(dst.chains)`next
      ensures Valid() && Contents() == [] && dst.Linked() && dst.Contents() == old(dst.Contents()) + old(Contents())
      ensures dst.Pointed() <==> old(totalLen) == 0 || old(dst.Tight()) || old(dst.Contents()) == []
      ensures (old(Tight()) ==> Tight()) && (old(Tight()) && old(dst.Tight()) ==> dst.Tight()) && Apart(dst)
      ensures forall c :: c in chains ==> c in old(chains)
      ensures forall c :: c in dst.chains ==> c in old(dst.chains) || c in old(chains)
    {
      var _ := dst.AddBuffer(this);
    }
  }

  /** A buffer that can be written at the end and read at the start. */
  ghost predicate Ready(x: EvBuffer)
    reads x, x.chains, Buffers(x.chains)
  {
    x.Valid() && x.Tight() && !x.freezeStart && !x.freezeEnd
  }
}
