/** The timer heap: an array of events ordered by deadline, each event knowing its place. */
module MinHeaps {
  import opened Wrappers

  type Event = nat

  /** ev_timeout of every event. */
  type Deadlines = map<Event, int>

  function Key(k: Deadlines, e: Event): int
  {
    if e in k then k[e] else 0
  }

  ghost predicate HasParent(i: int, n: nat)
  {
    0 < i < n
  }

  /** min_heap_elem_greater fails between every event and its parent. */
  ghost predicate Heap(s: seq<Event>, k: Deadlines)
  {
    forall i {:trigger HasParent(i, |s|)} :: HasParent(i, |s|) ==> Key(k, s[(i - 1) / 2]) <= Key(k, s[i])
  }

  /** A heap but for the event at h, which may be earlier than its parent. */
  ghost predicate HeapButUp(s: seq<Event>, k: Deadlines, h: nat)
  {
    && (forall i {:trigger HasParent(i, |s|)} :: HasParent(i, |s|) && i != h ==>
          Key(k, s[(i - 1) / 2]) <= Key(k, s[i]))
    && (forall i {:trigger HasParent(i, |s|)} :: HasParent(i, |s|) && 0 < h == (i - 1) / 2 ==>
          Key(k, s[(h - 1) / 2]) <= Key(k, s[i]))
  }

  /** A heap but for the event at h, which may be later than its children. */
  ghost predicate HeapButDown(s: seq<Event>, k: Deadlines, h: nat)
  {
    && (forall i {:trigger HasParent(i, |s|)} :: HasParent(i, |s|) && (i - 1) / 2 != h ==>
          Key(k, s[(i - 1) / 2]) <= Key(k, s[i]))
    && (forall i {:trigger HasParent(i, |s|)} :: HasParent(i, |s|) && 0 < h < |s| && h == (i - 1) / 2 ==>
          Key(k, s[(h - 1) / 2]) <= Key(k, s[i]))
  }

  function Swap(s: seq<Event>, i: nat, j: nat): (r: seq<Event>)
    requires i < |s| && j < |s|
    ensures |r| == |s| && multiset(r) == multiset(s)
  {
    s[i := s[j]][j := s[i]]
  }

  lemma SwapUp(s: seq<Event>, k: Deadlines, h: nat)
    requires 0 < h < |s| && HeapButUp(s, k, h) && Key(k, s[(h - 1) / 2]) > Key(k, s[h])
    ensures HeapButUp(Swap(s, h, (h - 1) / 2), k, (h - 1) / 2)
  {
    var q := (h - 1) / 2;
    var r := Swap(s, h, q);
    assert HasParent(h, |s|);
    forall i | HasParent(i, |r|) && i != q ensures Key(k, r[(i - 1) / 2]) <= Key(k, r[i]) {
      assert HasParent(i, |s|);
      if i != h && (i - 1) / 2 == q {
        assert Key(k, s[q]) <= Key(k, s[i]);
      }
    }
    forall i | HasParent(i, |r|) && 0 < q == (i - 1) / 2 ensures Key(k, r[(q - 1) / 2]) <= Key(k, r[i]) {
      assert HasParent(q, |s|) && HasParent(i, |s|);
    }
  }

  lemma SwapDown(s: seq<Event>, k: Deadlines, h: nat, c: nat)
    requires h < c < |s| && (c - 1) / 2 == h && HeapButDown(s, k, h) && Key(k, s[h]) > Key(k, s[c])
    requires forall i :: HasParent(i, |s|) && (i - 1) / 2 == h ==> Key(k, s[c]) <= Key(k, s[i])
    ensures HeapButDown(Swap(s, h, c), k, c)
  {
    var r := Swap(s, h, c);
    forall i | HasParent(i, |r|) && (i - 1) / 2 != c ensures Key(k, r[(i - 1) / 2]) <= Key(k, r[i]) {
      assert HasParent(i, |s|) && HasParent(c, |s|);
    }
    forall i | HasParent(i, |r|) && (i - 1) / 2 == c ensures Key(k, r[(c - 1) / 2]) <= Key(k, r[i]) {
      assert HasParent(i, |s|);
    }
  }

  /** The root of a heap is the earliest event. */
  lemma {:induction false} RootIsLeast(s: seq<Event>, k: Deadlines, i: nat)
    requires Heap(s, k) && i < |s|
    ensures Key(k, s[0]) <= Key(k, s[i])
  {
    if i > 0 {
      assert HasParent(i, |s|);
      RootIsLeast(s, k, (i - 1) / 2);
    }
  }

  /** min_heap_idx is the inverse of the array. */
  ghost predicate Indexed(s: seq<Event>, idx: map<Event, nat>)
  {
    && (forall i :: 0 <= i < |s| ==> s[i] in idx && idx[s[i]] == i)
    && (forall t :: t in idx ==> idx[t] < |s| && s[idx[t]] == t)
  }

  /** As Indexed, but for the event at h, whose index is not written yet. */
  ghost predicate IndexedBut(s: seq<Event>, idx: map<Event, nat>, h: nat)
    requires h < |s|
  {
    && (forall i :: 0 <= i < |s| && i != h ==> s[i] in idx && idx[s[i]] == i && s[i] != s[h])
    && (forall t :: t in idx && t != s[h] ==> idx[t] < |s| && s[idx[t]] == t)
  }

  lemma SwapIndexed(s: seq<Event>, idx: map<Event, nat>, h: nat, c: nat)
    requires h < |s| && c < |s| && h != c && IndexedBut(s, idx, h)
    ensures IndexedBut(Swap(s, h, c), idx[s[c] := h], c)
  {
    var r := Swap(s, h, c);
    var after := idx[s[c] := h];
    forall t | t in after && t != r[c] ensures after[t] < |r| && r[after[t]] == t {
      if t != s[c] {
        assert s[idx[t]] == t;
      }
    }
  }

  lemma IndexWritten(s: seq<Event>, idx: map<Event, nat>, h: nat)
    requires h < |s| && IndexedBut(s, idx, h)
    ensures Indexed(s, idx[s[h] := h])
  {
  }

  lemma SameHeap(s: seq<Event>, k: Deadlines, k': Deadlines, idx: map<Event, nat>, e: Event)
    requires Heap(s, k) && Indexed(s, idx) && e !in idx && forall t :: t != e ==> Key(k', t) == Key(k, t)
    ensures Heap(s, k')
  {
    assert forall i :: 0 <= i < |s| ==> s[i] != e;
  }

  lemma PushedHeap(s: seq<Event>, k: Deadlines, idx: map<Event, nat>, e: Event)
    requires Heap(s, k) && Indexed(s, idx) && e !in idx
    ensures HeapButUp(s + [e], k, |s|) && IndexedBut(s + [e], idx, |s|)
  {
    var r := s + [e];
    forall i | HasParent(i, |r|) && i != |s| ensures Key(k, r[(i - 1) / 2]) <= Key(k, r[i]) {
      assert HasParent(i, |s|);
    }
  }

  lemma ErasedIndex(s: seq<Event>, idx: map<Event, nat>, i: nat)
    requires i + 1 < |s| && Indexed(s, idx)
    ensures IndexedBut(s[..|s| - 1][i := s[|s| - 1]], idx - {s[i]}, i)
  {
    var r := s[..|s| - 1][i := s[|s| - 1]];
    assert idx[s[|s| - 1]] == |s| - 1;
    forall t | t in idx - {s[i]} && t != r[i] ensures idx[t] < |r| && r[idx[t]] == t {
      assert s[idx[t]] == t;
    }
  }

  lemma ErasedLast(s: seq<Event>, k: Deadlines, idx: map<Event, nat>, e: Event)
    requires s != [] && Heap(s, k) && Indexed(s, idx) && s[|s| - 1] == e
    ensures Heap(s[..|s| - 1], k) && Indexed(s[..|s| - 1], idx - {e})
  {
    var r := s[..|s| - 1];
    forall i | HasParent(i, |r|) ensures Key(k, r[(i - 1) / 2]) <= Key(k, r[i]) {
      assert HasParent(i, |s|);
    }
    forall t | t in idx - {e} ensures idx[t] < |r| && r[idx[t]] == t {
      assert s[idx[t]] == t;
    }
  }

  /** The last event put in the place of event i: it may have to move up, or down, but never both. */
  lemma ErasedUp(s: seq<Event>, k: Deadlines, i: nat)
    requires 0 < i < |s| - 1 && Heap(s, k) && Key(k, s[(i - 1) / 2]) > Key(k, s[|s| - 1])
    ensures HeapButUp(s[..|s| - 1][i := s[|s| - 1]], k, i)
  {
    var r := s[..|s| - 1][i := s[|s| - 1]];
    assert HasParent(i, |s|);
    forall c | HasParent(c, |r|) ensures HasParent(c, |s|) {
    }
  }

  lemma ErasedDown(s: seq<Event>, k: Deadlines, i: nat)
    requires i < |s| - 1 && Heap(s, k) && (i > 0 ==> Key(k, s[(i - 1) / 2]) <= Key(k, s[|s| - 1]))
    ensures HeapButDown(s[..|s| - 1][i := s[|s| - 1]], k, i)
  {
    var r := s[..|s| - 1][i := s[|s| - 1]];
    assert i > 0 ==> HasParent(i, |s|);
    forall c | HasParent(c, |r|) ensures HasParent(c, |s|) {
    }
  }

  function Max(a: nat, b: nat): nat
  {
    if a < b then b else a
  }

  function Doubled(n: nat): nat
  {
    if n > 0 then n * 2 else 8
  }

  class MinHeap {
    var p: array<Event>
    var n: nat
    var timeout: Deadlines
    /** min_heap_idx of the events in the heap; the others have -1. */
    var idx: map<Event, nat>

    constructor ()
      ensures Valid() && Elements() == {} && timeout == map[] && fresh(p)
    {
      p, n, timeout, idx := new Event[0], 0, map[], map[];
    }

    ghost function Elements(): set<Event>
      reads `idx
    {
      idx.Keys
    }

    ghost predicate Valid()
      reads this, p
    {
      n <= p.Length && Heap(p[..n], timeout) && Indexed(p[..n], idx)
    }

    /** The array once e is in the hole. */
    ghost function With(hole: nat, e: Event): seq<Event>
      requires hole < n <= p.Length
      reads `p, `n, p
    {
      p[..n][hole := e]
    }

    /** (s->p[h] = s->p[from])->min_heap_idx = h, moving the hole to `from`. */
    method MoveHole(h: nat, from: nat, e: Event)
      requires h < n <= p.Length && from < n && from != h && IndexedBut(With(h, e), idx, h)
      modifies p, `idx
      ensures With(from, e) == Swap(old(With(h, e)), h, from)
      ensures IndexedBut(With(from, e), idx, from) && idx.Keys + {e} == old(idx.Keys) + {e}
    {
      SwapIndexed(With(h, e), idx, h, from);
      assert p[from] == With(h, e)[from] && p[from] in idx;
      p[h] := p[from];
      idx := idx[p[from] := h];
      assert With(from, e) == Swap(old(With(h, e)), h, from);
    }

    /** (s->p[h] = e)->min_heap_idx = h. */
    method FillHole(h: nat, e: Event)
      requires h < n <= p.Length && Heap(With(h, e), timeout) && IndexedBut(With(h, e), idx, h)
      modifies p, `idx
      ensures Valid() && idx.Keys == old(idx.Keys) + {e}
    {
      ghost var s := With(h, e);
      IndexWritten(s, idx, h);
      p[h] := e;
      idx := idx[e := h];
      assert p[..n] == s;
    }

    /** min_heap_shift_up_. */
    method ShiftUp(hole: nat, e: Event)
      requires hole < n <= p.Length && HeapButUp(With(hole, e), timeout, hole) && IndexedBut(With(hole, e), idx, hole)
      modifies p, `idx
      ensures Valid() && idx.Keys == old(idx.Keys) + {e}
    {
      hide HeapButUp, IndexedBut, Indexed, Heap;
      var h := hole;
      while h > 0 && Key(timeout, p[(h - 1) / 2]) > Key(timeout, e)
        invariant 0 <= h < n && HeapButUp(With(h, e), timeout, h) && IndexedBut(With(h, e), idx, h)
        invariant idx.Keys + {e} == old(idx.Keys) + {e}
        decreases h
      {
        var parent := (h - 1) / 2;
        SwapUp(With(h, e), timeout, h);
        MoveHole(h, parent, e);
        h := parent;
      }
      UpDone(With(h, e), timeout, h);
      FillHole(h, e);
    }

    /** min_heap_shift_down_ on the first n events. */
    method ShiftDown(hole: nat, e: Event)
      requires hole < n <= p.Length && HeapButDown(With(hole, e), timeout, hole) && IndexedBut(With(hole, e), idx, hole)
      modifies p, `idx
      ensures Valid() && idx.Keys == old(idx.Keys) + {e}
    {
      hide HeapButDown, IndexedBut, Indexed, Heap;
      var h := hole;
      var minChild := 2 * (h + 1);
      while minChild <= n
        invariant 0 <= h < n && minChild == 2 * (h + 1)
        invariant HeapButDown(With(h, e), timeout, h) && IndexedBut(With(h, e), idx, h)
        invariant idx.Keys + {e} == old(idx.Keys) + {e}
        decreases n - h
      {
        if minChild == n || Key(timeout, p[minChild]) > Key(timeout, p[minChild - 1]) {
          minChild := minChild - 1;
        }
        if Key(timeout, e) <= Key(timeout, p[minChild]) {
          break;
        }
        SwapDown(With(h, e), timeout, h, minChild);
        MoveHole(h, minChild, e);
        h := minChild;
        minChild := 2 * (h + 1);
      }
      DownDone(With(h, e), timeout, h);
      FillHole(h, e);
    }

    /** ev->ev_timeout = t, for an event that is not in the heap. */
    method SetTimeout(e: Event, t: int)
      requires Valid() && e !in Elements()
      modifies `timeout
      ensures Valid() && timeout == old(timeout)[e := t]
    {
      SameHeap(p[..n], timeout, timeout[e := t], idx, e);
      timeout := timeout[e := t];
    }

    /** min_heap_reserve. */
    method Reserve(size: nat)
      requires n <= p.Length
      modifies `p
      ensures size <= p.Length && n <= p.Length && p[..n] == old(p[..n])
      ensures if size <= old(p.Length) then p == old(p) else fresh(p) && p.Length == Max(size, Doubled(old(p.Length)))
    {
      if p.Length < size {
        var a := if p.Length > 0 then p.Length * 2 else 8;
        if a < size {
          a := size;
        }
        var q := new Event[a](_ => 0);
        forall i | 0 <= i < n {
          q[i] := p[i];
        }
        p := q;
      }
    }

    /** min_heap_push. */
    method Push(e: Event)
      requires Valid() && e !in Elements()
      modifies this, p
      ensures Valid() && Elements() == old(Elements()) + {e} && timeout == old(timeout)
      ensures p == old(p) || fresh(p)
    {
      ghost var s := p[..n];
      Reserve(n + 1);
      PushedHeap(s, timeout, idx, e);
      n := n + 1;
      assert With(n - 1, e) == s + [e];
      ShiftUp(n - 1, e);
    }

    /** The last event goes where e was, and from there up or down. */
    method Refill(i: nat, ghost s: seq<Event>, ghost before: map<Event, nat>)
      requires n < p.Length && |s| == n + 1 && i < n && p[..n + 1] == s
      requires Heap(s, timeout) && Indexed(s, before) && idx == before - {s[i]}
      modifies p, `idx
      ensures Valid() && Elements() == old(idx.Keys)
    {
      var last := p[n];
      ErasedIndex(s, before, i);
      assert p[..n] == s[..n];
      assert With(i, last) == s[..n][i := s[n]];
      assert last in idx by { assert before[s[n]] == n && before[s[i]] == i; }
      if i > 0 && Key(timeout, p[(i - 1) / 2]) > Key(timeout, last) {
        ErasedUp(s, timeout, i);
        ShiftUp(i, last);
      } else {
        ErasedDown(s, timeout, i);
        ShiftDown(i, last);
      }
    }

    /** min_heap_erase. For the last event C rewrites the slot it has just given up. */
    method Erase(e: Event) returns (result: int)
      requires Valid()
      modifies `n, `idx, p
      ensures Valid() && result == (if e in old(Elements()) then 0 else -1)
      ensures Elements() == old(Elements()) - {e}
    {
      if e !in idx {
        return -1;
      }
      ghost var s, before := p[..n], idx;
      var i := idx[e];
      idx := idx - {e};
      n := n - 1;
      if i == n {
        ErasedLast(s, timeout, before, e);
        assert p[..n] == s[..n];
      } else {
        assert p[..n + 1] == s;
        Refill(i, s, before);
      }
      return 0;
    }

    /** min_heap_top: an event no later than any other. */
    method Top() returns (r: Option<Event>)
      requires Valid()
      ensures r.None? <==> Elements() == {}
      ensures r.Some? ==> r.value in Elements() && forall e :: e in Elements() ==> Key(timeout, r.value) <= Key(timeout, e)
    {
      if n == 0 {
        assert Elements() == {};
        return None;
      }
      assert p[0] == p[..n][0];
      forall e | e in Elements() ensures Key(timeout, p[0]) <= Key(timeout, e) {
        RootIsLeast(p[..n], timeout, idx[e]);
      }
      return Some(p[0]);
    }
  }

  lemma UpDone(s: seq<Event>, k: Deadlines, h: nat)
    requires h < |s| && HeapButUp(s, k, h) && (h > 0 ==> Key(k, s[(h - 1) / 2]) <= Key(k, s[h]))
    ensures Heap(s, k)
  {
  }

  lemma DownDone(s: seq<Event>, k: Deadlines, h: nat)
    requires h < |s| && HeapButDown(s, k, h)
    requires forall i :: HasParent(i, |s|) && (i - 1) / 2 == h ==> Key(k, s[h]) <= Key(k, s[i])
    ensures Heap(s, k)
  {
  }
}
