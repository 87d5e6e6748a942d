/** The chained hash table of ht-internal.h. */
module HashTables {
  import opened TailQueues

  class Entry {
    const key: int
    /** hte_next. */
    var next: Entry?

    constructor (key: int)
      ensures this.key == key && next == null
    {
      this.key, next := key, null;
    }
  }

  /** The entry at position i of a chain, or the null pointer at its end. */
  ghost function At(c: seq<Entry>, i: nat): Entry?
  {
    if i < |c| then c[i] else null
  }

  /** Following hte_next from head runs through c, from position k on. */
  ghost predicate LinkedFrom(c: seq<Entry>, k: nat)
    reads c
  {
    forall i {:trigger c[i].next} :: k <= i < |c| ==> c[i].next == At(c, i + 1)
  }

  ghost predicate IsChain(head: Entry?, c: seq<Entry>)
    reads c
  {
    head == At(c, 0) && LinkedFrom(c, 0)
  }

  ghost function Members(rows: seq<seq<Entry>>): (m: set<Entry>)
    ensures forall i, e :: 0 <= i < |rows| && e in rows[i] ==> e in m
  {
    set i, e | 0 <= i < |rows| && e in rows[i] :: e
  }

  /** No entry occurs twice. */
  ghost predicate Apart(rows: seq<seq<Entry>>)
  {
    && (forall i :: 0 <= i < |rows| ==> Distinct(rows[i]))
    && (forall i, j, e :: 0 <= i < |rows| && 0 <= j < |rows| && e in rows[i] && e in rows[j] ==> i == j)
  }

  /** Bucket i of the array holds chain i. */
  ghost predicate Rows(t: array<Entry?>, rows: seq<seq<Entry>>)
    reads t, Members(rows)
  {
    |rows| == t.Length && Apart(rows) && forall i :: 0 <= i < t.Length ==> IsChain(t[i], rows[i])
  }

  /** e->next = table[j]; table[j] = e. */
  method PushFront(t: array<Entry?>, j: nat, e: Entry, ghost rows: seq<seq<Entry>>) returns (ghost after: seq<seq<Entry>>)
    requires Rows(t, rows) && j < t.Length && e !in Members(rows)
    modifies t, e`next
    ensures after == rows[j := [e] + rows[j]] && Rows(t, after) && Members(after) == Members(rows) + {e}
  {
    e.next := t[j];
    t[j] := e;
    after := rows[j := [e] + rows[j]];
    PushedFront(rows, j, e);
  }

  lemma PushedFront(rows: seq<seq<Entry>>, j: nat, e: Entry)
    requires Apart(rows) && j < |rows| && e !in Members(rows)
    ensures var after := rows[j := [e] + rows[j]];
            Apart(after) && Members(after) == Members(rows) + {e}
  {
    var after := rows[j := [e] + rows[j]];
    assert after[j][1..] == rows[j];
    assert e in after[j];
    forall i, x | 0 <= i < |rows| && x in rows[i] ensures x in after[i] && x in Members(rows) {
    }
  }

  /** *pE = e->next, where pE is the slot in prev, or the bucket itself. */
  method Unlink(t: array<Entry?>, j: nat, prev: Entry?, e: Entry, ghost k: nat, ghost rows: seq<seq<Entry>>)
      returns (ghost after: seq<seq<Entry>>)
    requires Rows(t, rows) && j < t.Length && k < |rows[j]| && e == rows[j][k]
    requires prev == if k == 0 then null else rows[j][k - 1]
    modifies t, Members(rows)`next
    ensures after == rows[j := rows[j][..k] + rows[j][k + 1..]] && Rows(t, after) && Members(after) == Members(rows) - {e}
    ensures e.next == old(e.next)
  {
    after := rows[j := rows[j][..k] + rows[j][k + 1..]];
    Unlinked(rows, j, k);
    if prev == null {
      t[j] := e.next;
    } else {
      prev.next := e.next;
    }
  }

  lemma {:induction false} DistinctAt(c: seq<Entry>, i: nat, j: nat)
    requires Distinct(c) && i < j < |c|
    ensures c[i] != c[j]
  {
    if i > 0 {
      DistinctAt(c[1..], i - 1, j - 1);
    } else {
      assert c[j] == c[1..][j - 1];
    }
  }

  lemma {:induction false} RemovedAt(c: seq<Entry>, k: nat)
    requires Distinct(c) && k < |c|
    ensures Remove(c, c[k]) == c[..k] + c[k + 1..]
  {
    if k > 0 {
      DistinctAt(c, 0, k);
      RemovedAt(c[1..], k - 1);
    }
  }

  lemma Unlinked(rows: seq<seq<Entry>>, j: nat, k: nat)
    requires Apart(rows) && j < |rows| && k < |rows[j]|
    ensures var after := rows[j := rows[j][..k] + rows[j][k + 1..]];
            Apart(after) && Members(after) == Members(rows) - {rows[j][k]}
    ensures k > 0 ==> rows[j][k - 1] != rows[j][k]
  {
    RemovedAt(rows[j], k);
    RemoveDistinct(rows[j], rows[j][k]);
    if k > 0 {
      DistinctAt(rows[j], k - 1, k);
    }
    var after := rows[j := rows[j][..k] + rows[j][k + 1..]];
    forall i, x | 0 <= i < |rows| && x in rows[i] && x != rows[j][k] ensures x in after[i] {
    }
  }

  /** Every entry of chain j belongs there. */
  ghost predicate Home(rows: seq<seq<Entry>>, j: nat, hash: int -> nat)
  {
    j < |rows| ==> forall e :: e in rows[j] ==> hash(e.key) % |rows| == j
  }

  /** The slot pE holds what comes after prev in bucket b. */
  ghost predicate Cursor(prev: Entry?, c: seq<Entry>, k: nat)
  {
    k <= |c| && prev == if k == 0 then null else c[k - 1]
  }

  lemma CursorUnlinked(prev: Entry?, c: seq<Entry>, k: nat)
    requires Cursor(prev, c, k) && k < |c|
    ensures Cursor(prev, c[..k] + c[k + 1..], k) && (c[..k] + c[k + 1..])[..k] == c[..k]
  {
  }

  /** Takes the entry after prev out of bucket b and puts it where it belongs. */
  method MoveHome(t: array<Entry?>, b: nat, b2: nat, prev: Entry?, e: Entry, ghost k: nat, ghost rows: seq<seq<Entry>>)
      returns (ghost after: seq<seq<Entry>>)
    requires Rows(t, rows) && b < t.Length && b2 < t.Length && b2 != b
    requires k < |rows[b]| && e == rows[b][k] && Cursor(prev, rows[b], k)
    modifies t, Members(rows)`next
    ensures after == rows[b := rows[b][..k] + rows[b][k + 1..]][b2 := [e] + rows[b2]]
    ensures Rows(t, after) && Members(after) == Members(rows)
  {
    after := Unlink(t, b, prev, e, k, rows);
    assert e in Members(rows);
    after := PushFront(t, b2, e, after);
  }

  /** The inner loop of the growth in place. */
  method RehashBucket(t: array<Entry?>, b: nat, hash: int -> nat, ghost before: seq<seq<Entry>>)
      returns (ghost rows: seq<seq<Entry>>)
    requires Rows(t, before) && b < t.Length
    modifies t, Members(before)`next
    ensures Rows(t, rows) && Members(rows) == Members(before)
    ensures Home(rows, b, hash) && forall j: nat :: Home(before, j, hash) ==> Home(rows, j, hash)
  {
    hide Apart, LinkedFrom, Distinct, Members;
    rows := before;
    ghost var k := 0;
    var prev: Entry? := null;
    var e := t[b];
    while e != null
      invariant Rows(t, rows) && Members(rows) == Members(before)
      invariant Cursor(prev, rows[b], k) && e == At(rows[b], k)
      invariant forall x :: x in rows[b][..k] ==> hash(x.key) % |rows| == b
      invariant forall j: nat :: Home(before, j, hash) ==> Home(rows, j, hash)
      decreases |rows[b]| - k
    {
      var b2 := hash(e.key) % t.Length;
      if b2 == b {
        NextAt(rows[b], k);
        assert rows[b][..k + 1] == rows[b][..k] + [e];
        prev := e;
        e := e.next;
        k := k + 1;
      } else {
        CursorUnlinked(prev, rows[b], k);
        rows := MoveHome(t, b, b2, prev, e, k, rows);
        if k > 0 {
          NextAt(rows[b], k - 1);
        }
        e := if prev == null then t[b] else prev.next;
      }
    }
    assert rows[b][..k] == rows[b];
  }

  lemma NextAt(c: seq<Entry>, k: nat)
    requires LinkedFrom(c, 0) && k < |c|
    ensures c[k].next == At(c, k + 1)
  {
  }

  /** The outer loop of the growth in place: only the first old buckets can hold strangers. */
  method Rehash(t: array<Entry?>, old_: nat, hash: int -> nat, ghost before: seq<seq<Entry>>)
      returns (ghost rows: seq<seq<Entry>>)
    requires Rows(t, before) && old_ <= t.Length && forall j: nat :: j >= old_ ==> Home(before, j, hash)
    modifies t, Members(before)`next
    ensures Rows(t, rows) && Members(rows) == Members(before) && forall j: nat :: Home(rows, j, hash)
  {
    rows := before;
    for b := 0 to old_
      invariant Rows(t, rows) && Members(rows) == Members(before)
      invariant forall j: nat :: j < b || j >= old_ ==> Home(rows, j, hash)
    {
      rows := RehashBucket(t, b, hash, rows);
    }
  }

  /** The entries of the first b chains, and the first k of the next one. */
  ghost function Moved(rows: seq<seq<Entry>>, b: nat, k: nat): set<Entry>
    requires b < |rows| && k <= |rows[b]|
  {
    Members(rows[..b]) + set e | e in rows[b][..k]
  }

  lemma MovedStep(rows: seq<seq<Entry>>, b: nat, k: nat)
    requires Apart(rows) && b < |rows| && k < |rows[b]|
    ensures rows[b][k] !in Moved(rows, b, k)
    ensures Moved(rows, b, k + 1) == Moved(rows, b, k) + {rows[b][k]}
    ensures forall j :: b < j < |rows| ==> rows[b][k] !in rows[j]
    ensures forall i :: k < i < |rows[b]| ==> rows[b][i] != rows[b][k]
  {
    assert rows[b][k] in rows[b];
    forall i | 0 <= i < |rows[b]| && i != k ensures rows[b][i] != rows[b][k] {
      DistinctAt(rows[b], if i < k then i else k, if i < k then k else i);
    }
  }

  lemma MovedRow(rows: seq<seq<Entry>>, b: nat)
    requires b < |rows|
    ensures Moved(rows, b, |rows[b]|) == Members(rows[..b + 1])
  {
    assert rows[b][..|rows[b]|] == rows[b];
    assert rows[..b + 1][b] == rows[b];
    forall i, e | 0 <= i < b && e in rows[i] ensures e in Members(rows[..b]) && e in Members(rows[..b + 1]) {
      assert e in rows[..b][i] && e in rows[..b + 1][i];
    }
  }

  /** Chains that still hang on the old buckets. */
  ghost predicate Hanging(old_: array<Entry?>, chains: seq<seq<Entry>>, b: nat)
    reads old_, Members(chains)
  {
    |chains| == old_.Length && forall j :: b <= j < old_.Length ==> IsChain(old_[j], chains[j])
  }

  /** One turn of the inner loop of the growth into a fresh table. */
  method MoveOne(t: array<Entry?>, old_: array<Entry?>, b: nat, elm: Entry, hash: int -> nat,
                 ghost k: nat, ghost chains: seq<seq<Entry>>, ghost before: seq<seq<Entry>>)
      returns (next: Entry?, ghost rows: seq<seq<Entry>>)
    requires t != old_ && t.Length > 0 && b < |chains| && Apart(chains) && k < |chains[b]| && elm == chains[b][k]
    requires LinkedFrom(chains[b], k) && Hanging(old_, chains, b + 1)
    requires Rows(t, before) && Members(before) == Moved(chains, b, k) && forall j: nat :: Home(before, j, hash)
    modifies t, elm`next
    ensures next == At(chains[b], k + 1) && LinkedFrom(chains[b], k + 1) && Hanging(old_, chains, b + 1)
    ensures Rows(t, rows) && Members(rows) == Moved(chains, b, k + 1) && forall j: nat :: Home(rows, j, hash)
  {
    hide Apart, Distinct, Members, Moved, Rows, At;
    MovedStep(chains, b, k);
    next := elm.next;
    var b2 := hash(elm.key) % t.Length;
    assert |before| == t.Length by { RowPerBucket(t, before); }
    rows := PushFront(t, b2, elm, before);
    forall j: nat ensures Home(rows, j, hash) {
      assert Home(before, j, hash);
    }
  }

  lemma RowPerBucket(t: array<Entry?>, rows: seq<seq<Entry>>)
    requires Rows(t, rows)
    ensures |rows| == t.Length
  {
  }

  /** The inner loop of the growth into a fresh table. */
  method MoveBucket(t: array<Entry?>, old_: array<Entry?>, b: nat, hash: int -> nat,
                    ghost chains: seq<seq<Entry>>, ghost before: seq<seq<Entry>>) returns (ghost rows: seq<seq<Entry>>)
    requires t != old_ && t.Length > 0 && b < old_.Length && Apart(chains) && Hanging(old_, chains, b)
    requires Rows(t, before) && Members(before) == Members(chains[..b]) && forall j: nat :: Home(before, j, hash)
    modifies t, Members(chains)`next
    ensures Hanging(old_, chains, b + 1) && Rows(t, rows) && Members(rows) == Members(chains[..b + 1])
    ensures forall j: nat :: Home(rows, j, hash)
  {
    hide Apart, Distinct, Rows;
    rows := before;
    ghost var k := 0;
    var elm := old_[b];
    ghost var c := chains[b];
    while elm != null
      invariant k <= |c| && elm == At(c, k) && LinkedFrom(c, k)
      invariant Hanging(old_, chains, b + 1) && Rows(t, rows) && Members(rows) == Moved(chains, b, k)
      invariant forall j: nat :: Home(rows, j, hash)
      decreases |c| - k
    {
      elm, rows := MoveOne(t, old_, b, elm, hash, k, chains, rows);
      k := k + 1;
    }
    MovedRow(chains, b);
  }

  /** Growth into a fresh table. */
  method MoveAll(t: array<Entry?>, old_: array<Entry?>, hash: int -> nat, ghost chains: seq<seq<Entry>>)
      returns (ghost rows: seq<seq<Entry>>)
    requires t != old_ && t.Length > 0 && Rows(old_, chains) && forall j :: 0 <= j < t.Length ==> t[j] == null
    modifies t, Members(chains)`next
    ensures Rows(t, rows) && Members(rows) == Members(chains) && forall j: nat :: Home(rows, j, hash)
  {
    rows := seq(t.Length, _ => []);
    for b := 0 to old_.Length
      invariant Hanging(old_, chains, b) && Rows(t, rows) && Members(rows) == Members(chains[..b])
      invariant forall j: nat :: Home(rows, j, hash)
    {
      rows := MoveBucket(t, old_, b, hash, chains, rows);
    }
    assert chains[..old_.Length] == chains;
  }

  const PRIMES: seq<nat> := [53, 97, 193, 389, 769, 1543, 3079, 6151, 12289, 24593, 49157, 98317, 196613, 393241,
                             786433, 1572869, 3145739, 6291469, 12582917, 25165843, 50331653, 100663319, 201326611,
                             402653189, 805306457, 1610612741]

  lemma PrimesIncrease(i: nat, j: nat)
    requires i <= j < |PRIMES|
    ensures 53 <= PRIMES[i] <= PRIMES[j] && (i < j ==> PRIMES[i] < PRIMES[j])
    decreases j - i
  {
    if i < j {
      PrimesIncrease(i + 1, j);
    }
  }

  /** Counting along the chains is counting the entries. */
  lemma {:induction false} TotalMembers(rows: seq<seq<Entry>>)
    requires Apart(rows)
    ensures Total(rows) == |Members(rows)|
  {
    if rows == [] {
      assert Members(rows) == {};
    } else {
      forall i | 0 <= i < |rows[1..]| ensures rows[1..][i] == rows[i + 1] {
      }
      TotalMembers(rows[1..]);
      DistinctCount(rows[0]);
      var first := set e | e in rows[0];
      assert Members(rows) == first + Members(rows[1..]) by {
        forall e | e in Members(rows) ensures e in first + Members(rows[1..]) {
          var i :| 0 <= i < |rows| && e in rows[i];
          assert i > 0 ==> e in rows[1..][i - 1];
        }
      }
      assert first !! Members(rows[1..]);
    }
  }

  lemma SameTotal(rows: seq<seq<Entry>>, after: seq<seq<Entry>>)
    requires Apart(rows) && Apart(after) && Members(rows) == Members(after)
    ensures Total(rows) == Total(after)
  {
    TotalMembers(rows);
    TotalMembers(after);
  }

  lemma {:induction false} DistinctCount(c: seq<Entry>)
    requires Distinct(c)
    ensures |set e | e in c| == |c|
  {
    if c != [] {
      DistinctCount(c[1..]);
      assert (set e | e in c) == {c[0]} + set e | e in c[1..];
    }
  }

  class HashTable {
    const hash: int -> nat
    /** The maximum load, as a fraction. */
    const num: nat
    const den: nat
    /** hth_table and hth_table_length; the null pointer is the array of length 0. */
    var table: array<Entry?>
    var n: nat
    var loadLimit: nat
    var primeIdx: int
    ghost var chains: seq<seq<Entry>>

    /** HT_INIT. */
    constructor (hash: int -> nat, num: nat, den: nat)
      requires 0 < num <= den <= 53 * num
      ensures Valid() && Elements() == {} && fresh(table) && this.hash == hash && this.num == num && this.den == den
    {
      this.hash, this.num, this.den := hash, num, den;
      table, n, loadLimit, primeIdx, chains := new Entry?[0], 0, 0, -1, [];
    }

    /** The most entries whose number over the length is no more than num / den. */
    function Limit(length: nat): (r: nat)
      requires den > 0
      ensures r * den <= num * length < (r + 1) * den
    {
      Quotient(num * length, den);
      num * length / den
    }

    lemma LimitMonotone(a: nat, b: nat)
      requires den > 0 && a <= b
      ensures Limit(a) <= Limit(b)
    {
      assert num * a <= num * b;
      DivMonotone(num * a, num * b, den);
    }

    ghost predicate Sizes()
      reads `table, `loadLimit, `primeIdx
    {
      && 0 < num <= den <= 53 * num && -1 <= primeIdx < |PRIMES|
      && (if primeIdx == -1 then table.Length == 0 && loadLimit == 0
          else table.Length == PRIMES[primeIdx] && loadLimit == Limit(table.Length))
    }

    ghost predicate Valid()
      reads this, table, Members(chains)
    {
      && Sizes() && Rows(table, chains) && n == Total(chains) && (forall j: nat :: Home(chains, j, hash))
      && (forall x, y :: x in Elements() && y in Elements() && x.key == y.key ==> x == y)
    }

    ghost function Elements(): set<Entry>
      reads `chains
    {
      Members(chains)
    }

    /**
     * The new size: the next primes until the limit exceeds the size asked for. The loop tests its index after the
     * read and lets it reach |PRIMES|: it reads behind the table of primes just when the last limit is too small.
     */
    method NextPrime(size: nat) returns (inside: bool, idx: nat)
      requires Sizes() && primeIdx < |PRIMES| - 1
      ensures inside <==> size < Limit(PRIMES[|PRIMES| - 1])
      ensures inside ==> primeIdx < idx < |PRIMES| && size < Limit(PRIMES[idx])
      ensures inside ==> forall i :: primeIdx < i < idx ==> Limit(PRIMES[i]) <= size
    {
      idx := primeIdx + 1;
      while Limit(PRIMES[idx]) <= size && idx < |PRIMES|
        invariant primeIdx < idx < |PRIMES|
        invariant forall i :: primeIdx < i < idx ==> Limit(PRIMES[i]) <= size
        decreases |PRIMES| - idx
      {
        idx := idx + 1;
        if idx == |PRIMES| {
          return false, idx;
        }
      }
      inside := true;
      PrimesIncrease(idx, |PRIMES| - 1);
      LimitMonotone(PRIMES[idx], PRIMES[|PRIMES| - 1]);
    }

    /** The growth in place: the array is extended, and its old part is rehashed. */
    method GrowInPlace(newLen: nat)
      requires Rows(table, chains) && table.Length < newLen
      modifies `table, `chains, Elements()`next
      ensures fresh(table) && table.Length == newLen && Rows(table, chains)
      ensures Elements() == old(Elements()) && forall j: nat :: Home(chains, j, hash)
    {
      ghost var length := table.Length;
      var newTable := new Entry?[newLen](_ => null);
      forall b | 0 <= b < table.Length {
        newTable[b] := table[b];
      }
      ghost var rows := chains + seq(newLen - table.Length, _ => []);
      Extended(chains, newLen);
      assert Rows(newTable, rows);
      rows := Rehash(newTable, table.Length, hash, rows);
      table, chains := newTable, rows;
    }

    lemma Larger(idx: nat)
      requires Sizes() && primeIdx < idx < |PRIMES|
      ensures table.Length < PRIMES[idx] && loadLimit <= Limit(PRIMES[idx])
    {
      PrimesIncrease(if primeIdx >= 0 then primeIdx else 0, idx);
      LimitMonotone(table.Length, PRIMES[idx]);
    }

    /** The growth into a table from malloc. */
    method GrowFresh(newLen: nat)
      requires Rows(table, chains) && table.Length < newLen
      modifies `table, `chains, Elements()`next
      ensures fresh(table) && table.Length == newLen && Rows(table, chains)
      ensures Elements() == old(Elements()) && forall j: nat :: Home(chains, j, hash)
    {
      var newTable := new Entry?[newLen](_ => null);
      ghost var rows := MoveAll(newTable, table, hash, chains);
      table, chains := newTable, rows;
    }

    /** HT_GROW. The flags tell whether malloc and realloc give memory. */
    method Grow(size: nat, mallocWorks: bool, reallocWorks: bool) returns (inside: bool, result: int)
      requires Valid()
      modifies `table, `chains, `primeIdx, `loadLimit, Elements()`next
      ensures Valid() && Elements() == old(Elements()) && (table == old(table) || fresh(table))
      ensures inside <==> old(primeIdx) == |PRIMES| - 1 || old(loadLimit) > size || size < Limit(PRIMES[|PRIMES| - 1])
      ensures n == old(n) && (result == -1 <==> inside && old(primeIdx) < |PRIMES| - 1 && old(loadLimit) <= size && !mallocWorks && !reallocWorks)
      ensures inside && result != -1 ==> result == 0 && (loadLimit > size || old(primeIdx) == |PRIMES| - 1)
      ensures !inside || result == -1 || old(primeIdx) == |PRIMES| - 1 ==> table == old(table) && chains == old(chains) && loadLimit == old(loadLimit)
      ensures table.Length >= old(table).Length && (inside && old(table).Length == 0 && result != -1 ==> table.Length > 0)
      ensures if inside && old(primeIdx) < |PRIMES| - 1 && old(loadLimit) <= size && result == 0
              then primeIdx > old(primeIdx) && forall i :: old(primeIdx) < i < primeIdx ==> Limit(PRIMES[i]) <= size
              else primeIdx == old(primeIdx) && table == old(table) && chains == old(chains)
    {
      if primeIdx == |PRIMES| - 1 || loadLimit > size {
        return true, 0;
      }
      var idx;
      inside, idx := NextPrime(size);
      if !inside {
        return false, 0;
      }
      var newLen := PRIMES[idx];
      Larger(idx);
      ghost var before := chains;
      hide Home;
      if mallocWorks {
        GrowFresh(newLen);
      } else if reallocWorks {
        GrowInPlace(newLen);
      } else {
        return true, -1;
      }
      SameTotal(before, chains);
      primeIdx, loadLimit := idx, Limit(newLen);
      return true, 0;
    }

    /** HT_FIND_P on a table with buckets: the slot of the entry with this key, or the end of its chain. */
    method FindSlot(key: int) returns (b: nat, prev: Entry?, e: Entry?, ghost k: nat)
      requires Valid() && table.Length > 0
      ensures b == hash(key) % table.Length && Cursor(prev, chains[b], k) && e == At(chains[b], k)
      ensures e != null ==> e in Elements() && e.key == key
      ensures e == null ==> forall x :: x in Elements() ==> x.key != key
    {
      b := hash(key) % table.Length;
      prev, e, k := null, table[b], 0;
      ghost var c := chains[b];
      while e != null && e.key != key
        invariant Cursor(prev, c, k) && e == At(c, k)
        invariant forall x :: x in c[..k] ==> x.key != key
        decreases |c| - k
      {
        NextAt(c, k);
        assert c[..k + 1] == c[..k] + [e];
        prev := e;
        e := e.next;
        k := k + 1;
      }
      if e == null {
        assert c[..k] == c;
        OnlyAtHome(chains, b, key, hash);
      }
    }

    /** HT_FIND. */
    method Find(key: int) returns (e: Entry?)
      requires Valid()
      ensures e != null ==> e in Elements() && e.key == key
      ensures e == null ==> forall x :: x in Elements() ==> x.key != key
    {
      if table.Length == 0 {
        return null;
      }
      var _, _, found, _ := FindSlot(key);
      return found;
    }

    /** The last lines of HT_INSERT. */
    method PutIn(e: Entry)
      requires Valid() && table.Length > 0 && forall x :: x in Elements() ==> x.key != e.key
      modifies `n, `chains, table, e`next
      ensures Valid() && Elements() == old(Elements()) + {e} && n == old(n) + 1 && |chains| == |old(chains)| == table.Length
      ensures var b := hash(e.key) % table.Length; chains == old(chains)[b := [e] + old(chains)[b]]
    {
      hide Rows, Apart, Home, Members;
      RowPerBucket(table, chains);
      ghost var before := chains;
      var b := hash(e.key) % table.Length;
      n := n + 1;
      chains := PushFront(table, b, e, chains);
      FrontKeeps(before, b, e, hash);
    }

    /**
     * HT_INSERT, which does not look at the result of HT_GROW. `ok` is false where it has no table to put the entry
     * in, or reads behind the table of primes. Else the load stays within its limit just when it was below, or the
     * table has grown: not behind the last prime, and not without memory.
     */
    method Insert(e: Entry, mallocWorks: bool, reallocWorks: bool) returns (ok: bool)
      requires Valid() && forall x :: x in Elements() ==> x.key != e.key
      modifies this, table, Elements()`next, e`next
      ensures Valid() && Elements() == old(Elements()) + (if ok then {e} else {}) && (table == old(table) || fresh(table))
      ensures ok <==> old(Fits(n + 1)) && (mallocWorks || reallocWorks || old(table).Length > 0)
      ensures ok ==> n == old(n) + 1
      ensures ok ==> (n <= loadLimit <==>
                old(table.Length > 0 && n < loadLimit) || (old(primeIdx) < |PRIMES| - 1 && (mallocWorks || reallocWorks)))
    {
      hide Valid, Fits, Elements;
      ok := MakeRoom(mallocWorks, reallocWorks);
      if ok {
        assert Elements() == old(Elements());
        PutIn(e);
      }
    }

    /** The first lines of HT_INSERT. */
    method MakeRoom(mallocWorks: bool, reallocWorks: bool) returns (ok: bool)
      requires Valid()
      modifies `table, `chains, `primeIdx, `loadLimit, Elements()`next
      ensures Valid() && Elements() == old(Elements()) && (table == old(table) || fresh(table)) && (ok ==> table.Length > 0)
      ensures ok <==> old(Fits(n + 1)) && (mallocWorks || reallocWorks || old(table).Length > 0)
      ensures ok ==> (n + 1 <= loadLimit <==>
                old(table.Length > 0 && n < loadLimit) || (old(primeIdx) < |PRIMES| - 1 && (mallocWorks || reallocWorks)))
    {
      hide Valid, Sizes, Limit;
      NoLimit();
      if table.Length > 0 && n < loadLimit {
        return true;
      }
      var inside, result;
      inside, result := Grow(n + 1, mallocWorks, reallocWorks);
      return inside && table.Length > 0;
    }

    /** HT_GROW is not called, or finds a prime for this size. */
    ghost predicate Fits(size: nat)
      reads `table, `primeIdx, `loadLimit
      requires den > 0
    {
      primeIdx == |PRIMES| - 1 || (table.Length > 0 && size <= loadLimit) || size < Limit(PRIMES[|PRIMES| - 1])
    }

    lemma NoLimit()
      requires Valid()
      ensures table.Length == 0 <==> primeIdx == -1
      ensures primeIdx == -1 ==> n == 0 && loadLimit == 0 && 2 <= Limit(PRIMES[|PRIMES| - 1])
      ensures -1 <= primeIdx < |PRIMES| && den > 0
    {
    }

    /** The last lines of HT_REMOVE. */
    method TakeOut(b: nat, prev: Entry?, r: Entry, ghost k: nat)
      requires Valid() && b < |chains| && k < |chains[b]| && r == chains[b][k] && Cursor(prev, chains[b], k)
      modifies `n, `chains, table, Elements()`next
      ensures Valid() && Elements() == old(Elements()) - {r} && r.next == null
      ensures chains == old(chains[b := chains[b][..k] + chains[b][k + 1..]])
    {
      hide Home, Members;
      RowPerBucket(table, chains);
      ghost var before := chains;
      chains := Unlink(table, b, prev, r, k, chains);
      CutKeeps(before, b, k, hash);
      r.next := null;
      n := n - 1;
    }

    /** HT_REMOVE. */
    method RemoveKey(key: int) returns (r: Entry?)
      requires Valid()
      modifies `n, `chains, table, Elements()`next
      ensures Valid() && Elements() == old(Elements()) - (if r == null then {} else {r})
      ensures r != null ==> r in old(Elements()) && r.key == key && r.next == null
      ensures forall x :: x in Elements() ==> x.key != key
    {
      if table.Length == 0 {
        return null;
      }
      var b, prev, e, k := FindSlot(key);
      if e == null {
        return null;
      }
      r := e;
      TakeOut(b, prev, e, k);
      return e;
    }

    /** The first entry in bucket b or a later one. */
    method FirstFrom(from: nat) returns (e: Entry?)
      requires Rows(table, chains) && from <= table.Length
      ensures e == At(Order(chains), Total(chains[..from]))
    {
      OrderLength(chains);
      var b := from;
      while b < table.Length
        invariant from <= b <= table.Length && Total(chains[..b]) == Total(chains[..from])
      {
        if table[b] != null {
          OrderAt(chains, b, 0);
          return table[b];
        }
        assert chains[..b + 1] == chains[..b] + [chains[b]];
        TotalSnoc(chains[..b], chains[b]);
        b := b + 1;
      }
      assert chains[..b] == chains;
      return null;
    }

    /** HT_START. */
    method Start() returns (e: Entry?)
      requires Valid()
      ensures e == At(Order(chains), 0)
    {
      e := FirstFrom(0);
    }

    /** HT_NEXT after the entry at position i of the walk. */
    method Next(e: Entry, ghost i: nat) returns (r: Entry?)
      requires Valid() && i < |Order(chains)| && Order(chains)[i] == e
      ensures r == At(Order(chains), i + 1)
    {
      ghost var b, k := FindOrder(chains, i);
      var home := hash(e.key) % table.Length;
      assert e in chains[b] && Home(chains, b, hash);
      OrderAfter(chains, b, k);
      if e.next != null {
        return e.next;
      }
      r := FirstFrom(home + 1);
    }

    /** HT_NEXT_RMV: the entry in slot (b, prev) goes, and the walk is where it would have been next. */
    method NextRmv(b: nat, prev: Entry?, e: Entry, ghost k: nat) returns (r: Entry?)
      requires Valid() && b < |chains| && k < |chains[b]| && e == chains[b][k] && Cursor(prev, chains[b], k)
      modifies `n, `chains, table, Elements()`next
      ensures Valid() && Elements() == old(Elements()) - {e}
      ensures var i := Total(old(chains[..b])) + k;
              && i < |old(Order(chains))| && old(Order(chains))[i] == e
              && Order(chains) == old(Order(chains))[..i] + old(Order(chains))[i + 1..] && r == At(Order(chains), i)
    {
      hide Home, Members, Apart, Order, Sizes;
      ghost var before := chains;
      OrderCut(chains, b, k);
      var next := e.next;
      assert next == At(chains[b], k + 1);
      TakeOut(b, prev, e, k);
      assert chains[..b] == before[..b];
      if next != null {
        OrderAt(chains, b, k);
        return next;
      }
      r := FirstFrom(b + 1);
      TotalSnoc(chains[..b], chains[b]);
      assert chains[..b + 1] == chains[..b] + [chains[b]];
    }

    /** HT_FOREACH meets every entry once. */
    method Walk() returns (met: seq<Entry>)
      requires Valid()
      ensures met == Order(chains)
      ensures Distinct(met) && |met| == n && (set e | e in met) == Elements()
    {
      OrderLength(chains);
      OrderMembers(chains);
      hide Order, Distinct, Members, Apart, Home, LinkedFrom, Valid;
      met := [];
      var e := Start();
      while e != null
        invariant Valid() && |met| <= |Order(chains)| && met == Order(chains)[..|met|] && e == At(Order(chains), |met|)
        decreases |Order(chains)| - |met|
      {
        var r := Next(e, |met|);
        met := met + [e];
        e := r;
      }
      assert met == Order(chains);
    }

    /** HT_REP_IS_BAD. */
    method RepIsBad() returns (r: int)
      requires Rows(table, chains) && -1 <= primeIdx < |PRIMES| && 0 < num <= den <= 53 * num
      ensures r == 0 <==> Sizes() && n <= loadLimit && n == Total(chains) && forall j: nat :: Home(chains, j, hash)
      ensures r == 1 <==> table.Length == 0 && !(n == 0 && loadLimit == 0 && primeIdx == -1)
      ensures r == 2 <==> table.Length > 0 && (primeIdx < 0 || loadLimit == 0)
      ensures r == 3 <==> table.Length > 0 && primeIdx >= 0 && 0 < loadLimit < n
      ensures r == 4 <==> table.Length > 0 && primeIdx >= 0 && loadLimit > 0 && n <= loadLimit && table.Length != PRIMES[primeIdx]
      ensures r == 5 <==> && table.Length > 0 && primeIdx >= 0 && loadLimit > 0 && n <= loadLimit && table.Length == PRIMES[primeIdx]
                          && loadLimit != Limit(table.Length)
      ensures r <= 6 || (10000 <= r < 10000 + table.Length && !Home(chains, r - 10000, hash) && forall j: nat :: j < r - 10000 ==> Home(chains, j, hash))
    {
      if table.Length == 0 {
        r := if n == 0 && loadLimit == 0 && primeIdx == -1 then 0 else 1;
        assert r == 1 ==> !(Sizes() && n <= loadLimit) by { PrimesIncrease(if primeIdx >= 0 then primeIdx else 0, 25); }
        return;
      }
      if primeIdx < 0 || loadLimit == 0 {
        if Sizes() {
          LimitPositive();
        }
        return 2;
      }
      if n > loadLimit {
        return 3;
      }
      if table.Length != PRIMES[primeIdx] {
        return 4;
      }
      if loadLimit != Limit(table.Length) {
        return 5;
      }
      var count := 0;
      for i := 0 to table.Length
        invariant count == Total(chains[..i]) && forall j: nat :: j < i ==> Home(chains, j, hash)
      {
        var elm := table[i];
        ghost var k := 0;
        ghost var c := chains[i];
        while elm != null
          invariant k <= |c| && elm == At(c, k) && count == Total(chains[..i]) + k
          invariant forall x :: x in c[..k] ==> hash(x.key) % table.Length == i
          decreases |c| - k
        {
          if hash(elm.key) % table.Length != i {
            assert elm in c && !Home(chains, i, hash);
            return 10000 + i;
          }
          NextAt(c, k);
          assert c[..k + 1] == c[..k] + [elm];
          count := count + 1;
          elm := elm.next;
          k := k + 1;
        }
        assert c[..k] == c;
        TotalSnoc(chains[..i], c);
        assert chains[..i + 1] == chains[..i] + [c];
      }
      assert chains[..table.Length] == chains;
      r := if count != n then 6 else 0;
    }

    lemma LimitPositive()
      requires Sizes() && table.Length > 0
      ensures primeIdx >= 0 && loadLimit > 0
    {
      PrimesIncrease(primeIdx, 25);
      LimitMonotone(53, table.Length);
      DivMonotone(den, num * 53, den);
    }
  }

  lemma Quotient(a: nat, d: nat)
    requires d > 0
    ensures a / d * d <= a < (a / d + 1) * d
  {
    assert a == a / d * d + a % d;
  }

  lemma DivMonotone(a: nat, b: nat, d: nat)
    requires a <= b && d > 0
    ensures a / d <= b / d
  {
    LessFactor(d, a / d, b / d + 1);
  }

  lemma LessFactor(d: nat, x: nat, y: nat)
    requires d * x < d * y
    ensures x < y
  {
    assert d * (y - x) > 0;
  }

  lemma Extended(rows: seq<seq<Entry>>, length: nat)
    requires Apart(rows) && |rows| <= length
    ensures var after := rows + seq(length - |rows|, _ => []);
            Apart(after) && Members(after) == Members(rows) && forall i :: |rows| <= i < length ==> after[i] == []
  {
    var after := rows + seq(length - |rows|, _ => []);
    forall i, e | 0 <= i < |rows| && e in rows[i] ensures e in after[i] {
    }
  }

  lemma OnlyAtHome(rows: seq<seq<Entry>>, b: nat, key: int, hash: int -> nat)
    requires b < |rows| && b == hash(key) % |rows| && (forall j: nat :: Home(rows, j, hash))
    requires forall x :: x in rows[b] ==> x.key != key
    ensures forall x :: x in Members(rows) ==> x.key != key
  {
    forall j, x | 0 <= j < |rows| && x in rows[j] ensures x.key != key {
      assert Home(rows, j, hash);
    }
  }

  lemma FrontKeeps(rows: seq<seq<Entry>>, b: nat, e: Entry, hash: int -> nat)
    requires b < |rows| && b == hash(e.key) % |rows| && forall j: nat :: Home(rows, j, hash)
    ensures var after := rows[b := [e] + rows[b]];
            (forall j: nat :: Home(after, j, hash)) && Total(after) == Total(rows) + 1
  {
    TotalChanged(rows, b, [e] + rows[b]);
    var after := rows[b := [e] + rows[b]];
    forall j: nat ensures Home(after, j, hash) {
      assert Home(rows, j, hash);
    }
  }

  lemma CutKeeps(rows: seq<seq<Entry>>, b: nat, k: nat, hash: int -> nat)
    requires b < |rows| && k < |rows[b]| && forall j: nat :: Home(rows, j, hash)
    ensures var after := rows[b := rows[b][..k] + rows[b][k + 1..]];
            (forall j: nat :: Home(after, j, hash)) && Total(after) == Total(rows) - 1
  {
    TotalChanged(rows, b, rows[b][..k] + rows[b][k + 1..]);
    var after := rows[b := rows[b][..k] + rows[b][k + 1..]];
    forall j: nat ensures Home(after, j, hash) {
      assert Home(rows, j, hash);
    }
  }

  /** The order of a walk: bucket after bucket. */
  ghost function Order(rows: seq<seq<Entry>>): seq<Entry>
  {
    if rows == [] then [] else rows[0] + Order(rows[1..])
  }

  lemma {:induction false} OrderLength(rows: seq<seq<Entry>>)
    ensures |Order(rows)| == Total(rows)
  {
    if rows != [] {
      OrderLength(rows[1..]);
    }
  }

  lemma {:induction false} OrderAt(rows: seq<seq<Entry>>, b: nat, k: nat)
    requires b < |rows| && k < |rows[b]|
    ensures Total(rows[..b]) + k < |Order(rows)| && Order(rows)[Total(rows[..b]) + k] == rows[b][k]
  {
    if b > 0 {
      OrderAt(rows[1..], b - 1, k);
      assert rows[..b][1..] == rows[1..][..b - 1];
    }
  }

  lemma {:induction false} FindOrder(rows: seq<seq<Entry>>, i: nat) returns (b: nat, k: nat)
    requires i < |Order(rows)|
    ensures b < |rows| && k < |rows[b]| && i == Total(rows[..b]) + k && rows[b][k] == Order(rows)[i]
  {
    if i < |rows[0]| {
      b, k := 0, i;
    } else {
      b, k := FindOrder(rows[1..], i - |rows[0]|);
      assert rows[..b + 1][1..] == rows[1..][..b];
      b := b + 1;
    }
  }

  lemma OrderAfter(rows: seq<seq<Entry>>, b: nat, k: nat)
    requires b < |rows| && k < |rows[b]|
    ensures k + 1 < |rows[b]| ==> At(Order(rows), Total(rows[..b]) + k + 1) == rows[b][k + 1]
    ensures k + 1 == |rows[b]| ==> Total(rows[..b + 1]) == Total(rows[..b]) + k + 1
  {
    if k + 1 < |rows[b]| {
      OrderAt(rows, b, k + 1);
    } else {
      assert rows[..b + 1] == rows[..b] + [rows[b]];
      TotalSnoc(rows[..b], rows[b]);
    }
  }

  lemma CutJoin(c: seq<Entry>, k: nat, rest: seq<Entry>)
    requires k < |c|
    ensures (c + rest)[..k] == c[..k] && (c + rest)[k + 1..] == c[k + 1..] + rest
    ensures c[..k] + c[k + 1..] + rest == c[..k] + (c[k + 1..] + rest)
  {
  }

  lemma {:induction false} OrderCut(rows: seq<seq<Entry>>, b: nat, k: nat)
    requires b < |rows| && k < |rows[b]|
    ensures var i := Total(rows[..b]) + k; var after := rows[b := rows[b][..k] + rows[b][k + 1..]];
            && i < |Order(rows)| && Order(rows)[i] == rows[b][k]
            && Order(after) == Order(rows)[..i] + Order(rows)[i + 1..]
  {
    var after := rows[b := rows[b][..k] + rows[b][k + 1..]];
    if b > 0 {
      OrderCut(rows[1..], b - 1, k);
      assert rows[..b][1..] == rows[1..][..b - 1];
      assert after[1..] == rows[1..][b - 1 := after[b]];
    } else {
      assert after[1..] == rows[1..] && rows[..0] == [];
      CutJoin(rows[0], k, Order(rows[1..]));
    }
  }

  /** A walk meets every entry, and none twice. */
  lemma {:induction false} OrderMembers(rows: seq<seq<Entry>>)
    requires Apart(rows)
    ensures Distinct(Order(rows)) && (set e | e in Order(rows)) == Members(rows)
  {
    if rows != [] {
      forall i | 0 <= i < |rows[1..]| ensures rows[1..][i] == rows[i + 1] {
      }
      OrderMembers(rows[1..]);
      forall e | e in Members(rows) ensures e in rows[0] || e in Members(rows[1..]) {
        var i :| 0 <= i < |rows| && e in rows[i];
        assert i > 0 ==> e in rows[1..][i - 1];
      }
      assert forall e :: e in Order(rows[1..]) <==> e in Members(rows[1..]) by {
        assert forall e :: e in Order(rows[1..]) <==> e in set x | x in Order(rows[1..]);
      }
      DistinctJoin(rows[0], Order(rows[1..]));
      forall e | e in Members(rows[1..]) ensures e in Members(rows) {
        var i :| 0 <= i < |rows[1..]| && e in rows[1..][i];
        assert e in rows[i + 1];
      }
      assert forall e :: e in Order(rows) <==> e in rows[0] || e in Order(rows[1..]);
    }
  }

  lemma {:induction false} DistinctJoin(c: seq<Entry>, d: seq<Entry>)
    requires Distinct(c) && Distinct(d) && forall e :: e in c ==> e !in d
    ensures Distinct(c + d)
  {
    if c != [] {
      DistinctJoin(c[1..], d);
      assert (c + d)[1..] == c[1..] + d;
    } else {
      assert c + d == d;
    }
  }
}
