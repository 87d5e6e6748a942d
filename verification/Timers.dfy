/** Timers: a heap together with FIFO queues of events that share one common timeout. */
module Timers {
  import opened Wrappers
  import opened MinHeaps
  import opened TailQueues

  /** The timeout_event of common queue q. User events have even numbers. */
  function Internal(q: nat): Event
  {
    2 * q + 1
  }

  predicate IsUser(e: Event)
  {
    e % 2 == 0
  }

  /** A queue without duplicates, earliest deadline first. */
  ghost predicate Queue(l: seq<Event>, k: Deadlines)
  {
    l == [] ||
    (l[0] !in l[1..] && (forall x :: x in l[1..] ==> Key(k, l[0]) <= Key(k, x)) && Queue(l[1..], k))
  }

  lemma {:induction false} RemoveKeeps(l: seq<Event>, e: Event, k: Deadlines)
    requires Queue(l, k)
    ensures Queue(Remove(l, e), k) && forall x :: x in Remove(l, e) <==> x in l && x != e
  {
    if l != [] {
      assert forall x :: x in l <==> x == l[0] || x in l[1..];
      if l[0] != e {
        RemoveKeeps(l[1..], e, k);
        var r := [l[0]] + Remove(l[1..], e);
        assert r[1..] == Remove(l[1..], e);
        assert forall x :: x in r <==> x == l[0] || x in r[1..];
      }
    }
  }

  lemma {:induction false} InsertKeeps(l: seq<Event>, i: nat, e: Event, k: Deadlines)
    requires Queue(l, k) && e !in l && i <= |l|
    requires i > 0 ==> Key(k, l[i - 1]) <= Key(k, e)
    requires forall x :: x in l[i..] ==> Key(k, e) <= Key(k, x)
    ensures Queue(l[..i] + [e] + l[i..], k)
    ensures forall x :: x in l[..i] + [e] + l[i..] <==> x in l || x == e
  {
    var r := l[..i] + [e] + l[i..];
    if i == 0 {
      assert r == [e] + l && r[1..] == l;
    } else {
      var rest := l[1..];
      assert rest[i - 1..] == l[i..];
      assert i > 1 ==> l[i - 1] == rest[i - 2];
      InsertKeeps(rest, i - 1, e, k);
      assert r[1..] == rest[..i - 1] + [e] + rest[i - 1..];
      assert forall x :: x in l <==> x == l[0] || x in rest;
      assert forall x :: x in r <==> x == l[0] || x in r[1..];
    }
  }

  lemma {:induction false} LaterInQueue(l: seq<Event>, i: nat, k: Deadlines)
    requires Queue(l, k) && i < |l|
    ensures forall x :: x in l[i..] ==> Key(k, l[i]) <= Key(k, x)
  {
    if i > 0 {
      LaterInQueue(l[1..], i - 1, k);
      assert l[1..][i - 1..] == l[i..];
    } else {
      assert forall x :: x in l[0..] <==> x == l[0] || x in l[1..];
    }
  }

  /** Where a common queue takes a new event: behind every event that is not later. */
  ghost function InOrder(l: seq<Event>, e: Event, k: Deadlines): seq<Event>
  {
    if l != [] && Key(k, e) < Key(k, l[|l| - 1]) then
      InOrder(l[..|l| - 1], e, k) + [l[|l| - 1]]
    else
      l + [e]
  }

  lemma {:induction false} InOrderAt(l: seq<Event>, e: Event, k: Deadlines) returns (i: nat)
    ensures i <= |l| && InOrder(l, e, k) == l[..i] + [e] + l[i..]
    ensures i > 0 ==> Key(k, l[i - 1]) <= Key(k, e)
    ensures i < |l| ==> Key(k, e) < Key(k, l[i])
  {
    if l != [] && Key(k, e) < Key(k, l[|l| - 1]) {
      i := InOrderAt(l[..|l| - 1], e, k);
      assert l[i..] == l[..|l| - 1][i..] + [l[|l| - 1]];
    } else {
      i := |l|;
    }
  }

  /** The queue stays sorted; its head is the new event, or the old head. */
  lemma InOrderKeeps(l: seq<Event>, e: Event, k: Deadlines)
    requires Queue(l, k) && e !in l
    ensures var r := InOrder(l, e, k);
            && Queue(r, k) && r != [] && (forall x :: x in r <==> x in l || x == e)
            && (r[0] == e || (l != [] && r[0] == l[0]))
  {
    var i := InOrderAt(l, e, k);
    if i < |l| {
      LaterInQueue(l, i, k);
    }
    InsertKeeps(l, i, e, k);
  }

  /** insert_common_timeout_inorder: search backwards for an event that is not later. */
  method InsertInOrder(l: seq<Event>, e: Event, k: Deadlines) returns (r: seq<Event>)
    ensures r == InOrder(l, e, k)
  {
    var i := |l|;
    assert l[..i] == l;
    while i > 0 && Key(k, e) < Key(k, l[i - 1])
      invariant 0 <= i <= |l| && InOrder(l, e, k) == InOrder(l[..i], e, k) + l[i..]
    {
      assert l[..i][..i - 1] == l[..i - 1] && l[i - 1..] == [l[i - 1]] + l[i..];
      i := i - 1;
    }
    r := l[..i] + [e] + l[i..];
  }

  /** What event_base knows about timeouts: ev_timeout of an event is k, with a queue index in its top bits. */
  datatype Timers = Timers(inHeap: set<Event>, lists: seq<seq<Event>>, magic: map<Event, nat>,
                           timed: set<Event>, active: set<Event>, k: Deadlines)

  /** EVLIST_TIMEOUT means: in the heap, or in the queue that ev_timeout names. */
  ghost predicate Core(s: Timers)
  {
    && (forall e :: e in s.inHeap <==> e in s.timed && e !in s.magic)
    && (forall q :: 0 <= q < |s.lists| ==> Queue(s.lists[q], s.k))
    && (forall q, e {:trigger e in s.lists[q]} :: 0 <= q < |s.lists| ==>
          (e in s.lists[q] <==> e in s.timed && e in s.magic && s.magic[e] == q))
    && (forall e :: e in s.magic ==> s.magic[e] < |s.lists| && IsUser(e))
    && (forall e :: e in s.timed && !IsUser(e) ==> e / 2 < |s.lists|)
  }

  /** Queue q is served: its timeout_event is about to run, or is in the heap in time for the head. */
  ghost predicate Wakes(s: Timers, q: nat)
  {
    q < |s.lists| && s.lists[q] != [] ==>
      Internal(q) in s.active || (Internal(q) in s.timed && Key(s.k, Internal(q)) <= Key(s.k, s.lists[q][0]))
  }

  /** ev_timeout of the user's events, pending or not, is as it was but for e. */
  ghost predicate SameTimes(k: Deadlines, k': Deadlines, e: Event)
  {
    forall x :: IsUser(x) && x != e ==> Key(k', x) == Key(k, x)
  }

  lemma NoTimes(k: Deadlines, e: Event)
    ensures SameTimes(k, k, e)
  {
  }

  lemma TimesTwice(a: Deadlines, b: Deadlines, c: Deadlines, e: Event, d: Event)
    requires SameTimes(a, b, e) && SameTimes(b, c, d) && !IsUser(d)
    ensures SameTimes(a, c, e)
  {
  }

  /** The one flat set of timers that a user sees. */
  ghost function Pending(s: Timers): map<Event, int>
  {
    map e | e in s.timed && IsUser(e) :: Key(s.k, e)
  }

  ghost function Users(es: set<Event>): set<Event>
  {
    set e | e in es && IsUser(e)
  }

  /** is_common_timeout of ev_timeout. */
  ghost predicate IsCommon(s: Timers, e: Event)
  {
    e in s.magic && s.magic[e] < |s.lists|
  }

  /** event_queue_remove for EVLIST_TIMEOUT. */
  ghost function Without(s: Timers, e: Event): Timers
  {
    if IsCommon(s, e) then
      s.(timed := s.timed - {e}, lists := s.lists[s.magic[e] := Remove(s.lists[s.magic[e]], e)])
    else
      s.(timed := s.timed - {e}, inHeap := s.inHeap - {e})
  }

  /** event_queue_insert for EVLIST_TIMEOUT. */
  ghost function With(s: Timers, e: Event): Timers
  {
    if IsCommon(s, e) then
      s.(timed := s.timed + {e}, lists := s.lists[s.magic[e] := InOrder(s.lists[s.magic[e]], e, s.k)])
    else
      s.(timed := s.timed + {e}, inHeap := s.inHeap + {e})
  }

  /** ev->ev_timeout = t, with the index of a common queue or without. */
  ghost function Set(s: Timers, e: Event, t: int, q: Option<nat>): Timers
  {
    s.(k := s.k[e := t], magic := if q.Some? then s.magic[e := q.value] else s.magic - {e})
  }

  lemma WithoutKeeps(s: Timers, e: Event)
    requires Core(s) && e in s.timed
    ensures var r := Without(s, e);
            && Core(r) && Pending(r) == Pending(s) - {e}
            && (forall q: nat :: Wakes(s, q) && Internal(q) != e ==> Wakes(r, q))
  {
    var r := Without(s, e);
    if e in s.magic {
      var q := s.magic[e];
      RemoveKeeps(s.lists[q], e, s.k);
      if r.lists[q] != [] {
        LaterInQueue(s.lists[q], 0, s.k);
        assert r.lists[q][0] in r.lists[q];
      }
    }
  }

  lemma {:induction false} SameQueue(l: seq<Event>, k: Deadlines, k': Deadlines, e: Event)
    requires Queue(l, k) && e !in l && forall x :: x != e ==> Key(k', x) == Key(k, x)
    ensures Queue(l, k')
  {
    if l != [] {
      assert l[0] != e;
      SameQueue(l[1..], k, k', e);
    }
  }

  lemma SetKeeps(s: Timers, e: Event, t: int, q: Option<nat>)
    requires Core(s) && e !in s.timed && (q.Some? ==> q.value < |s.lists| && IsUser(e))
    ensures var r := Set(s, e, t, q);
            Core(r) && Pending(r) == Pending(s) && forall p: nat :: Wakes(s, p) ==> Wakes(r, p)
  {
    var r := Set(s, e, t, q);
    forall p | 0 <= p < |s.lists| ensures Queue(r.lists[p], r.k) && e !in s.lists[p] {
      SameQueue(s.lists[p], s.k, r.k, e);
    }
  }

  lemma WithKeeps(s: Timers, e: Event)
    requires Core(s) && e !in s.timed && (IsUser(e) || e / 2 < |s.lists|)
    ensures var r := With(s, e);
            && Core(r) && Pending(r) == (if IsUser(e) then Pending(s)[e := Key(s.k, e)] else Pending(s))
            && (forall q: nat :: Wakes(s, q) && (e in s.magic && s.magic[e] == q ==> r.lists[q][..1] != [e]) ==> Wakes(r, q))
            && (e in s.magic ==> r.lists[s.magic[e]] != [])
  {
    var r := With(s, e);
    if e in s.magic {
      InOrderKeeps(s.lists[s.magic[e]], e, s.k);
    }
  }

  /** event_add_internal up to the insertion, for a deadline t. */
  ghost function Rescheduled(s: Timers, e: Event, t: int, q: Option<nat>): Timers
  {
    var gone := if e in s.timed then Without(s, e) else s;
    With(Set(gone.(active := gone.active - {e}), e, t, q), e)
  }

  lemma Inactive(s: Timers, e: Event)
    requires Core(s)
    ensures Core(s.(active := s.active - {e})) && Pending(s.(active := s.active - {e})) == Pending(s)
    ensures forall q: nat :: Wakes(s, q) && Internal(q) != e ==> Wakes(s.(active := s.active - {e}), q)
  {
  }

  lemma RescheduledKeeps(s: Timers, e: Event, t: int, q: Option<nat>)
    requires Core(s) && (q.Some? ==> q.value < |s.lists| && IsUser(e)) && (IsUser(e) || e / 2 < |s.lists|)
    ensures var r := Rescheduled(s, e, t, q);
            && Core(r) && Pending(r) == (if IsUser(e) then Pending(s)[e := t] else Pending(s))
            && (forall p: nat :: Wakes(s, p) && Internal(p) != e && (q == Some(p) ==> r.lists[p][..1] != [e]) ==> Wakes(r, p))
            && (q.Some? ==> r.lists[q.value] != [])
            && (q.None? && e !in s.magic ==> r.lists == s.lists)
            && e in r.timed && Key(r.k, e) == t && r.active == s.active - {e} && |r.lists| == |s.lists|
            && SameTimes(s.k, r.k, e)
  {
    hide Core, Wakes;
    var gone := if e in s.timed then Without(s, e) else s;
    if e in s.timed {
      WithoutKeeps(s, e);
    }
    Inactive(gone, e);
    var idle := gone.(active := gone.active - {e});
    assert e !in idle.timed;
    SetKeeps(idle, e, t, q);
    WithKeeps(Set(idle, e, t, q), e);
    assert (Pending(s) - {e})[e := t] == Pending(s)[e := t];
  }

  /** common_timeout_schedule puts the timeout_event of a queue at the deadline of the queue's head. */
  ghost function Scheduled(s: Timers, q: nat): Timers
  {
    if q < |s.lists| && s.lists[q] != [] then
      Rescheduled(s, Internal(q), Key(s.k, s.lists[q][0]), None)
    else
      s
  }

  lemma ScheduledKeeps(s: Timers, q: nat)
    requires Core(s) && q < |s.lists|
    ensures var r := Scheduled(s, q);
            && Core(r) && Pending(r) == Pending(s) && Wakes(r, q) && r.lists == s.lists && r.magic == s.magic
            && (forall p: nat :: Wakes(s, p) ==> Wakes(r, p)) && Users(r.active) == Users(s.active)
            && r.active == (if s.lists[q] != [] then s.active - {Internal(q)} else s.active)
            && SameTimes(s.k, r.k, Internal(q))
  {
    if s.lists[q] != [] {
      RescheduledKeeps(s, Internal(q), Key(s.k, s.lists[q][0]), None);
    }
  }

  /** event_add_internal for a deadline t, in common queue q or in the heap. */
  ghost function Added(s: Timers, e: Event, t: int, q: Option<nat>): Timers
  {
    var r := Rescheduled(s, e, t, q);
    if q.Some? && q.value < |r.lists| && r.lists[q.value][..1] == [e] then Scheduled(r, q.value) else r
  }

  /** event_add_internal: a new head of a common queue moves the timeout_event of that queue. */
  lemma AddedKeeps(s: Timers, e: Event, t: int, q: Option<nat>)
    requires Core(s) && (forall p: nat :: Wakes(s, p)) && IsUser(e) && (q.Some? ==> q.value < |s.lists|)
    ensures var r := Rescheduled(s, e, t, q);
            var added := Added(s, e, t, q);
            && Core(r) && |r.lists| == |s.lists| && (q.Some? ==> r.lists[q.value] != [])
            && Core(added) && (forall p: nat :: Wakes(added, p)) && Pending(added) == Pending(s)[e := t]
            && Users(added.active) == Users(s.active) - {e} && added.active <= s.active && |added.lists| == |s.lists|
            && SameTimes(s.k, added.k, e) && Key(added.k, e) == t
            && (if q.Some? then e in added.lists[q.value] else e in added.inHeap)
  {
    hide Core, Wakes, Pending, Rescheduled, Scheduled;
    RescheduledKeeps(s, e, t, q);
    var r := Rescheduled(s, e, t, q);
    if q.Some? && r.lists[q.value][..1] == [e] {
      ScheduledKeeps(r, q.value);
    }
    Placed(s, e, t, q);
  }

  /** It is in the queue that it was added to, or in the heap. */
  lemma Placed(s: Timers, e: Event, t: int, q: Option<nat>)
    requires Core(s) && IsUser(e) && (q.Some? ==> q.value < |s.lists|)
    ensures var added := Added(s, e, t, q); |added.lists| == |s.lists| && if q.Some? then e in added.lists[q.value] else e in added.inHeap
  {
    hide Wakes, Pending;
    RescheduledKeeps(s, e, t, q);
    var r := Rescheduled(s, e, t, q);
    if q.Some? {
      ScheduledKeeps(r, q.value);
    }
  }

  /** The timers of queue q that are due. */
  ghost function DueIn(s: Timers, q: nat, now: int): set<Event>
  {
    set e | e in s.timed && e in s.magic && s.magic[e] == q && Key(s.k, e) <= now
  }

  lemma HeadIsDue(s: Timers, q: nat, now: int)
    requires Core(s) && q < |s.lists| && s.lists[q] != [] && Key(s.k, s.lists[q][0]) <= now
    ensures var e := s.lists[q][0];
            && e in DueIn(s, q, now) && e in s.timed
            && DueIn(Without(s, e).(active := s.active + {e}), q, now) == DueIn(s, q, now) - {e}
            && |Without(s, e).lists| == |s.lists|
  {
    assert s.lists[q][0] in s.lists[q];
  }

  lemma NothingDue(s: Timers, q: nat, now: int)
    requires Core(s) && q < |s.lists| && (s.lists[q] != [] ==> Key(s.k, s.lists[q][0]) > now)
    ensures DueIn(s, q, now) == {}
  {
    if s.lists[q] != [] {
      LaterInQueue(s.lists[q], 0, s.k);
    }
    assert forall e :: e in DueIn(s, q, now) ==> e in s.lists[q];
  }

  lemma DueUnmoved(s: Timers, r: Timers, q: nat, now: int)
    requires Core(s)
    requires r == (if Internal(q) in s.timed then Without(s, Internal(q)) else s).(active := r.active)
    ensures DueIn(r, q, now) == DueIn(s, q, now) && |r.lists| == |s.lists|
    ensures Pending(s) - {Internal(q)} == Pending(s) && Internal(q) !in DueIn(s, q, now)
  {
  }

  lemma OneFurther(l: seq<Event>, n: nat)
    requires n < |l|
    ensures l[n..][0] == l[n] && l[n..][1..] == l[n + 1..] && l[..n] + [l[n]] == l[..n + 1]
  {
  }

  lemma HeadGoes(s: Timers, q: nat)
    requires Core(s) && q < |s.lists| && s.lists[q] != []
    ensures var e := s.lists[q][0]; q < |Without(s, e).lists| && Without(s, e).lists[q] == s.lists[q][1..]
  {
    assert s.lists[q][0] in s.lists[q];
  }

  /** No event is before one with an earlier deadline. */
  ghost predicate InTime(l: seq<Event>, k: Deadlines)
  {
    forall i, j :: 0 <= i < j < |l| ==> Key(k, l[i]) <= Key(k, l[j])
  }

  class TimerBase {
    const heap: MinHeap
    /** common_timeout_queues. */
    var lists: seq<seq<Event>>
    /** The queue index in the top bits of ev_timeout.tv_usec. */
    var magic: map<Event, nat>
    /** The events with EVLIST_TIMEOUT. */
    var timed: set<Event>
    /** The events that are active with EV_TIMEOUT. */
    var active: set<Event>

    constructor (queues: nat)
      ensures Valid() && fresh(heap) && fresh(heap.p) && |lists| == queues
      ensures Pending(State()) == map[] && active == {} && heap.timeout == map[]
    {
      heap := new MinHeap();
      lists, magic, timed, active := seq(queues, _ => []), map[], {}, {};
    }

    ghost function State(): Timers
      reads this, heap
    {
      Timers(heap.Elements(), lists, magic, timed, active, heap.timeout)
    }

    ghost predicate Valid()
      reads this, heap, heap.p
    {
      heap.Valid() && Core(State()) && forall q: nat :: Wakes(State(), q)
    }

    /** event_queue_remove for EVLIST_TIMEOUT. */
    method QueueRemove(e: Event)
      requires heap.Valid() && Core(State()) && e in timed
      modifies `lists, `timed, heap`n, heap`idx, heap.p
      ensures heap.Valid() && State() == Without(old(State()), e)
    {
      if e in magic && magic[e] < |lists| {
        var q := magic[e];
        lists := lists[q := Remove(lists[q], e)];
      } else {
        var _ := heap.Erase(e);
      }
      timed := timed - {e};
    }

    /** event_queue_insert for EVLIST_TIMEOUT. */
    method QueueInsert(e: Event)
      requires heap.Valid() && Core(State()) && e !in timed
      modifies `lists, `timed, heap, heap.p
      ensures heap.Valid() && State() == With(old(State()), e) && (heap.p == old(heap.p) || fresh(heap.p))
    {
      if e in magic && magic[e] < |lists| {
        var q := magic[e];
        var l := InsertInOrder(lists[q], e, heap.timeout);
        lists := lists[q := l];
      } else {
        heap.Push(e);
      }
      timed := timed + {e};
    }

    /** The part of event_add_internal that moves an event to its new deadline. */
    method Reschedule(e: Event, t: int, q: Option<nat>)
      requires heap.Valid() && Core(State()) && (q.Some? ==> q.value < |lists| && IsUser(e)) && (IsUser(e) || e / 2 < |lists|)
      modifies this, heap, heap.p
      ensures heap.Valid() && State() == Rescheduled(old(State()), e, t, q) && (heap.p == old(heap.p) || fresh(heap.p))
    {
      hide Core, Wakes;
      ghost var s := State();
      if e in timed {
        QueueRemove(e);
        WithoutKeeps(s, e);
      }
      Inactive(State(), e);
      active := active - {e};
      SetKeeps(State(), e, t, q);
      NotInHeap(State(), e);
      heap.SetTimeout(e, t);
      magic := if q.Some? then magic[e := q.value] else magic - {e};
      QueueInsert(e);
    }

    /** common_timeout_schedule for the head of queue q, if there is one. */
    method Schedule(q: nat)
      requires heap.Valid() && Core(State()) && q < |lists|
      modifies this, heap, heap.p
      ensures heap.Valid() && State() == Scheduled(old(State()), q) && (heap.p == old(heap.p) || fresh(heap.p))
    {
      if lists[q] != [] {
        var head := lists[q][0];
        Reschedule(Internal(q), if head in heap.timeout then heap.timeout[head] else 0, None);
      }
    }

    /** event_add_internal with a timeout tv, which may carry the index of a common queue. */
    method Add(e: Event, tv: int, q: Option<nat>, absolute: bool, now: int)
      requires Valid() && IsUser(e) && (q.Some? ==> q.value < |lists|)
      modifies this, heap, heap.p
      ensures Valid() && (heap.p == old(heap.p) || fresh(heap.p)) && |lists| == old(|lists|)
      ensures Pending(State()) == old(Pending(State()))[e := if absolute then tv else now + tv]
      ensures Users(active) == old(Users(active)) - {e} && active <= old(active)
      ensures SameTimes(old(heap.timeout), heap.timeout, e) && Key(heap.timeout, e) == if absolute then tv else now + tv
      ensures State() == Added(old(State()), e, if absolute then tv else now + tv, q)
      ensures if q.Some? then e in lists[q.value] else e in heap.Elements()
    {
      hide Core, Wakes, Pending, Rescheduled, Scheduled;
      var t := if absolute then tv else now + tv;
      AddedKeeps(State(), e, t, q);
      Reschedule(e, t, q);
      if q.Some? && lists[q.value][0] == e {
        Schedule(q.value);
      }
    }

    /** event_del_internal, as far as timeouts go. */
    method Del(e: Event)
      requires heap.Valid() && Core(State())
      modifies `lists, `timed, `active, heap`n, heap`idx, heap.p
      ensures heap.Valid() && Core(State()) && Pending(State()) == old(Pending(State())) - {e}
      ensures State() == (if e in old(timed) then Without(old(State()), e) else old(State())).(active := active)
      ensures active == old(active) - {e} && (forall p: nat :: old(Wakes(State(), p)) && Internal(p) != e ==> Wakes(State(), p))
      ensures IsUser(e) && old(Valid()) ==> Valid()
    {
      hide Core, Wakes;
      ghost var s := State();
      if e in timed {
        QueueRemove(e);
        WithoutKeeps(s, e);
      }
      Inactive(State(), e);
      active := active - {e};
    }

    /** timeout_next: None to wait for I/O only. */
    method TimeoutNext(now: int) returns (wait: Option<int>)
      requires Valid()
      ensures wait.Some? ==> wait.value >= 0
      ensures wait == None <==> heap.Elements() == {}
      ensures wait.Some? ==> exists e :: e in heap.Elements() && wait.value == Wait(Key(heap.timeout, e), now)
      ensures wait.Some? ==> forall e :: e in heap.Elements() ==> wait.value <= Wait(Key(heap.timeout, e), now)
      ensures active == {} ==> forall e :: e in Pending(State()) ==>
                wait.Some? && (wait.value == 0 || now + wait.value <= Pending(State())[e])
    {
      var ev := heap.Top();
      if ev == None {
        wait := None;
      } else {
        var t := if ev.value in heap.timeout then heap.timeout[ev.value] else 0;
        wait := if t <= now then Some(0) else Some(t - now);
        assert ev.value in heap.Elements() && wait.value == Wait(Key(heap.timeout, ev.value), now);
      }
      if active == {} {
        forall e | e in Pending(State())
          ensures wait.Some? && (wait.value == 0 || now + wait.value <= Pending(State())[e])
        {
          var _ := Covered(State(), e);
        }
      }
    }

    /** event_del_internal, then event_active_nolock with EV_TIMEOUT. */
    method Fire(e: Event)
      requires heap.Valid() && Core(State()) && e in timed
      modifies `lists, `timed, `active, heap`n, heap`idx, heap.p
      ensures heap.Valid() && State() == Without(old(State()), e).(active := old(active) + {e})
      ensures Core(State()) && Pending(State()) == old(Pending(State())) - {e}
      ensures forall p: nat :: old(Wakes(State(), p)) ==> Wakes(State(), p)
    {
      hide Core, Wakes;
      ghost var s := State();
      Del(e);
      active := active + {e};
      Fired(s, e);
    }

    /** timeout_process: what is due leaves the heap and becomes active, in the order of the deadlines. */
    method TimeoutProcess(now: int) returns (ghost order: seq<Event>)
      requires Valid()
      modifies `lists, `timed, `active, heap`n, heap`idx, heap.p
      ensures Valid() && lists == old(lists)
      ensures forall e :: e in active <==> e in old(active) || (e in old(heap.Elements()) && old(Key(heap.timeout, e)) <= now)
      ensures forall e :: e in timed <==> e in old(timed) && !(e in old(heap.Elements()) && old(Key(heap.timeout, e)) <= now)
      ensures forall e :: e in timed && Key(heap.timeout, e) <= now ==>
                IsUser(e) && e in magic && Internal(magic[e]) in active
      ensures InTime(order, heap.timeout) && forall e :: e in order <==> e in old(heap.Elements()) && old(Key(heap.timeout, e)) <= now
    {
      hide Core, Wakes;
      ghost var fired: set<Event> := {};
      order := [];
      while true
        modifies `lists, `timed, `active, heap`n, heap`idx, heap.p
        invariant Valid() && lists == old(lists) && active == old(active) + fired && timed == old(timed) - fired
        invariant heap.Elements() == old(heap.Elements()) - fired && fired <= old(heap.Elements())
        invariant forall e :: e in fired ==> Key(heap.timeout, e) <= now
        invariant InTime(order, heap.timeout) && forall e :: e in order <==> e in fired
        invariant forall d, e :: d in fired && e in heap.Elements() ==> Key(heap.timeout, d) <= Key(heap.timeout, e)
        decreases timed
      {
        var ev := heap.Top();
        if ev == None || Key(heap.timeout, ev.value) > now {
          break;
        }
        InHeap(State(), ev.value);
        Fire(ev.value);
        fired, order := fired + {ev.value}, order + [ev.value];
      }
      DueIsWoken(State(), now);
    }

    /** The loop of common_timeout_callback. */
    method RunQueue(q: nat, now: int) returns (ghost order: seq<Event>)
      requires heap.Valid() && Core(State()) && q < |lists|
      modifies `lists, `timed, `active, heap`n, heap`idx, heap.p
      ensures heap.Valid() && Core(State()) && |lists| == old(|lists|)
      ensures Pending(State()) == old(Pending(State())) - old(DueIn(State(), q, now))
      ensures active == old(active) + old(DueIn(State(), q, now))
      ensures forall p: nat :: old(Wakes(State(), p)) ==> Wakes(State(), p)
      ensures order <= old(lists[q]) && lists[q] == old(lists[q])[|order|..] && forall e :: e in order <==> e in old(DueIn(State(), q, now))
    {
      hide Core, Wakes, Pending, DueIn, Without, Queue;
      ghost var fired: set<Event> := {};
      ghost var l := lists[q];
      order := [];
      while lists[q] != [] && Key(heap.timeout, lists[q][0]) <= now
        modifies `lists, `timed, `active, heap`n, heap`idx, heap.p
        invariant heap.Valid() && Core(State()) && |lists| == old(|lists|)
        invariant fired <= old(DueIn(State(), q, now)) && DueIn(State(), q, now) == old(DueIn(State(), q, now)) - fired
        invariant Pending(State()) == old(Pending(State())) - fired && active == old(active) + fired
        invariant forall p: nat :: old(Wakes(State(), p)) ==> Wakes(State(), p)
        invariant |order| <= |l| && order == l[..|order|] && lists[q] == l[|order|..]
        invariant forall e :: e in order <==> e in fired
        decreases DueIn(State(), q, now)
      {
        var ev := lists[q][0];
        HeadIsDue(State(), q, now);
        HeadGoes(State(), q);
        OneFurther(l, |order|);
        Fire(ev);
        fired, order := fired + {ev}, order + [ev];
      }
      NothingDue(State(), q, now);
    }

    /** event_process_active takes up timeout_event q: event_del_internal, then common_timeout_callback. */
    method RunInternal(q: nat, now: int)
      requires Valid() && q < |lists|
      modifies this, heap, heap.p
      ensures Valid() && (heap.p == old(heap.p) || fresh(heap.p)) && |lists| == old(|lists|)
      ensures Pending(State()) == old(Pending(State())) - old(DueIn(State(), q, now))
      ensures active == old(active) - {Internal(q)} + old(DueIn(State(), q, now)) && magic == old(magic)
      ensures SameTimes(old(heap.timeout), heap.timeout, Internal(q))
    {
      hide Core, Wakes, Pending, DueIn, Without, Scheduled;
      ghost var s := State();
      Del(Internal(q));
      DueUnmoved(s, State(), q, now);
      var _ := RunQueue(q, now);
      ScheduledKeeps(State(), q);
      Schedule(q);
    }

    /** timeout_process, then the timeout_events it made active, in any order. */
    method ProcessDue(now: int)
      requires Valid() && Users(active) == active
      modifies this, heap, heap.p
      ensures Valid() && (heap.p == old(heap.p) || fresh(heap.p)) && |lists| == old(|lists|)
      ensures Pending(State()) == old(Pending(State())) - old(AllDue(State(), now))
      ensures active == old(active) + old(AllDue(State(), now)) && SameTimes(old(heap.timeout), heap.timeout, Internal(0))
    {
      hide Core, Wakes, SameTimes;
      assert SameTimes(heap.timeout, heap.timeout, Internal(0)) by { NoTimes(heap.timeout, Internal(0)); }
      ghost var s := State();
      var _ := TimeoutProcess(now);
      HeapFired(s, State(), now);
      while exists q: nat :: q < |lists| && Internal(q) in active
        invariant Valid() && (heap.p == old(heap.p) || fresh(heap.p)) && |lists| == old(|lists|)
        invariant Served(s, State(), now) && SameTimes(old(heap.timeout), heap.timeout, Internal(0))
        decreases Unserved(State())
      {
        var q: nat :| q < |lists| && Internal(q) in active;
        ghost var t := State();
        RunInternal(q, now);
        TimesTwice(s.k, t.k, heap.timeout, Internal(0), Internal(q));
        OneServed(s, t, State(), q, now);
      }
      AllServed(s, State(), now);
    }

    /** event_persist_closure: when a persistent timer runs, its next deadline is set. */
    method Persist(e: Event, delay: nat, byTimeout: bool, now: int)
      requires Valid() && IsUser(e)
      modifies this, heap, heap.p
      ensures Valid() && (heap.p == old(heap.p) || fresh(heap.p)) && |lists| == old(|lists|)
      ensures Users(active) == old(Users(active)) - {e} && active <= old(active)
      ensures Pending(State()).Keys == old(Pending(State())).Keys + {e} && Pending(State()) - {e} == old(Pending(State())) - {e}
      ensures SameTimes(old(heap.timeout), heap.timeout, e) && Key(heap.timeout, e) == Pending(State())[e]
      ensures var was := old(Key(heap.timeout, e)); var next := Pending(State())[e];
              && now <= next && (byTimeout && was <= now ==> next <= now + delay)
              && (next == now + delay || (byTimeout && next == was + delay))
              && (byTimeout && was + delay >= now ==> next == was + delay)
    {
      var was := if e in heap.timeout then heap.timeout[e] else 0;
      var runAt := (if byTimeout then was else now) + delay;
      if runAt < now {
        runAt := now + delay;
      }
      Add(e, runAt, if e in magic then Some(magic[e]) else None, true, now);
    }
  }

  lemma NotInHeap(s: Timers, e: Event)
    requires Core(s) && e !in s.timed
    ensures e !in s.inHeap
  {
  }

  /** The heap holds an event no later than a given timer, unless the timer's queue is about to be run. */
  lemma Covered(s: Timers, e: Event) returns (h: Event)
    requires Core(s) && (forall q: nat :: Wakes(s, q)) && e in s.timed
    ensures (h in s.inHeap && Key(s.k, h) <= Key(s.k, e)) || (IsUser(e) && e in s.magic && Internal(s.magic[e]) in s.active)
  {
    if e in s.magic {
      var q := s.magic[e];
      assert Wakes(s, q) && e in s.lists[q];
      LaterInQueue(s.lists[q], 0, s.k);
      h := Internal(q);
    } else {
      h := e;
    }
  }

  /** Once the heap holds nothing due, every due timer is in a queue that is about to be run. */
  lemma DueIsWoken(s: Timers, now: int)
    requires Core(s) && (forall q: nat :: Wakes(s, q)) && forall h :: h in s.inHeap ==> Key(s.k, h) > now
    ensures forall e :: e in s.timed && Key(s.k, e) <= now ==> IsUser(e) && e in s.magic && Internal(s.magic[e]) in s.active
  {
    forall e | e in s.timed && Key(s.k, e) <= now
      ensures IsUser(e) && e in s.magic && Internal(s.magic[e]) in s.active
    {
      var _ := Covered(s, e);
    }
  }

  lemma InHeap(s: Timers, e: Event)
    requires Core(s) && e in s.inHeap
    ensures e in s.timed && !IsCommon(s, e)
  {
  }

  lemma Fired(s: Timers, e: Event)
    requires Core(s) && e in s.timed
    ensures var r := Without(s, e).(active := s.active + {e});
            && Core(r) && Pending(r) == Pending(s) - {e}
            && (forall q: nat :: Wakes(s, q) ==> Wakes(r, q))
  {
    WithoutKeeps(s, e);
  }

  /** Every user timer that is due. */
  ghost function AllDue(s: Timers, now: int): set<Event>
  {
    set e | e in s.timed && IsUser(e) && Key(s.k, e) <= now
  }

  /** The common queues whose timeout_event is about to run. */
  ghost function Unserved(s: Timers): set<nat>
  {
    set q: nat | q < |s.lists| && Internal(q) in s.active
  }

  /** Between timeout_process at time now in state s and its last timeout_event: what is due is active or will be. */
  ghost predicate Served(s: Timers, r: Timers, now: int)
  {
    var late := AllDue(r, now);
    && Pending(r) == Pending(s) - (AllDue(s, now) - late) && late <= AllDue(s, now)
    && Users(r.active) == Users(s.active) + (AllDue(s, now) - late)
    && (forall e :: e in late ==> e in r.magic && Internal(r.magic[e]) in r.active)
    && (forall e :: e in r.active && !IsUser(e) ==> e / 2 < |r.lists|)
  }

  lemma HeapFired(s: Timers, r: Timers, now: int)
    requires Core(s) && Core(r) && s.lists == r.lists && s.k == r.k && s.magic == r.magic && Users(s.active) == s.active
    requires forall e :: e in r.active <==> e in s.active || (e in s.inHeap && Key(s.k, e) <= now)
    requires forall e :: e in r.timed <==> e in s.timed && !(e in s.inHeap && Key(s.k, e) <= now)
    requires forall e :: e in r.timed && Key(r.k, e) <= now ==> IsUser(e) && e in r.magic && Internal(r.magic[e]) in r.active
    ensures Served(s, r, now)
  {
  }

  lemma DueArePending(s: Timers, now: int)
    ensures forall e :: e in AllDue(s, now) <==> e in Pending(s) && Pending(s)[e] <= now
    ensures forall e :: e in AllDue(s, now) ==> IsUser(e)
    ensures Core(s) ==> forall q: nat :: DueIn(s, q, now) == set e | e in AllDue(s, now) && e in s.magic && s.magic[e] == q
  {
    if Core(s) {
      forall q: nat ensures DueIn(s, q, now) == set e | e in AllDue(s, now) && e in s.magic && s.magic[e] == q {
      }
    }
  }

  lemma OneServed(s: Timers, t: Timers, r: Timers, q: nat, now: int)
    requires Served(s, t, now) && Core(t) && Core(r) && q < |t.lists| == |r.lists| && Internal(q) in t.active
    requires Pending(r) == Pending(t) - DueIn(t, q, now) && r.active == t.active - {Internal(q)} + DueIn(t, q, now)
    requires r.magic == t.magic
    ensures Served(s, r, now) && Unserved(r) == Unserved(t) - {q}
  {
    DueArePending(s, now);
    DueArePending(t, now);
    DueArePending(r, now);
    hide Core, Pending, DueIn, AllDue;
    var due := DueIn(t, q, now);
    assert AllDue(r, now) == AllDue(t, now) - due;
    assert due <= AllDue(t, now) <= AllDue(s, now);
    assert AllDue(s, now) - AllDue(r, now) == AllDue(s, now) - AllDue(t, now) + due;
    assert Users(r.active) == Users(t.active) + due by { hide Served; }
    assert Pending(r) == Pending(s) - (AllDue(s, now) - AllDue(r, now)) by {
      assert Pending(t) == Pending(s) - (AllDue(s, now) - AllDue(t, now));
    }
  }

  lemma AllServed(s: Timers, r: Timers, now: int)
    requires Served(s, r, now) && Core(r) && Unserved(r) == {} && Users(s.active) == s.active
    ensures Pending(r) == Pending(s) - AllDue(s, now) && r.active == s.active + AllDue(s, now)
  {
    assert forall e :: e in AllDue(r, now) ==> r.magic[e] in Unserved(r);
    assert AllDue(r, now) == {};
    assert AllDue(s, now) - AllDue(r, now) == AllDue(s, now);
    assert forall e :: e in r.active && !IsUser(e) ==> Internal(e / 2) == e && e / 2 in Unserved(r);
    assert Users(r.active) == r.active;
  }

  /** What a program can do to its timers. */
  datatype Op =
    | Add(e: Event, tv: int, q: Option<nat>, absolute: bool, now: int)
    | Del(e: Event)
    | Tick(now: int)
    | Persist(e: Event, delay: nat, byTimeout: bool, now: int)

  /** How long it is from now until t. */
  function Wait(t: int, now: int): int
  {
    if t <= now then 0 else t - now
  }

  /** The simple form: one table of deadlines, the timers that have gone off, and the last deadline of each. */
  datatype Flat = Flat(pending: map<Event, int>, fired: set<Event>, last: map<Event, int>)

  ghost function Step(f: Flat, op: Op): Flat
  {
    match op
    case Add(e, tv, _, absolute, now) =>
      var t := if absolute then tv else now + tv;
      Flat(f.pending[e := t], f.fired - {e}, f.last[e := t])
    case Del(e) => Flat(f.pending - {e}, f.fired - {e}, f.last)
    case Tick(now) =>
      var due := set e | e in f.pending && f.pending[e] <= now;
      Flat(f.pending - due, f.fired + due, f.last)
    case Persist(e, delay, byTimeout, now) =>
      var t := if byTimeout && Key(f.last, e) + delay >= now then Key(f.last, e) + delay else now + delay;
      Flat(f.pending[e := t], f.fired - {e}, f.last[e := t])
  }

  ghost function Steps(ops: seq<Op>): Flat
  {
    if ops == [] then Flat(map[], {}, map[]) else Step(Steps(ops[..|ops| - 1]), ops[|ops| - 1])
  }

  predicate Allowed(op: Op, queues: nat)
  {
    match op
    case Add(e, _, q, _, _) => IsUser(e) && (q.Some? ==> q.value < queues)
    case Del(e) => IsUser(e)
    case Tick(_) => true
    case Persist(e, _, _, _) => IsUser(e)
  }

  /** Heap and queues hold what the flat table says, and nothing but user events is active. */
  ghost predicate Flattened(base: TimerBase, f: Flat)
    reads base, base.heap, base.heap.p
  {
    && base.Valid() && Users(base.active) == base.active && Pending(base.State()) == f.pending && base.active == f.fired
    && forall e :: IsUser(e) ==> Key(base.heap.timeout, e) == Key(f.last, e)
  }

  /** One step of a run changes heap and queues as it changes the flat table. */
  method Do(base: TimerBase, op: Op, ghost f: Flat)
    requires Flattened(base, f) && Allowed(op, |base.lists|)
    modifies base, base.heap, base.heap.p
    ensures Flattened(base, Step(f, op)) && |base.lists| == old(|base.lists|)
    ensures base.heap.p == old(base.heap.p) || fresh(base.heap.p)
  {
    hide Core, Wakes, Pending, Added;
    match op
    case Add(e, tv, q, absolute, now) => base.Add(e, tv, q, absolute, now);
    case Del(e) => base.Del(e);
    case Tick(now) =>
      DueArePending(base.State(), now);
      base.ProcessDue(now);
    case Persist(e, delay, byTimeout, now) =>
      base.Persist(e, delay, byTimeout, now);
      assert Pending(base.State()) == Step(f, op).pending by {
        ghost var p, t := Pending(base.State()), Step(f, op).pending[e];
        assert p[e] == t && p == (p - {e})[e := t];
      }
  }

  /** Over every run, the heap and the common queues together are the flat table. */
  method Run(queues: nat, ops: seq<Op>) returns (base: TimerBase)
    requires forall op :: op in ops ==> Allowed(op, queues)
    ensures fresh(base) && Flattened(base, Steps(ops))
  {
    hide Core, Wakes, Pending, Step;
    base := new TimerBase(queues);
    for i := 0 to |ops|
      invariant fresh(base) && fresh(base.heap) && fresh(base.heap.p) && |base.lists| == queues
      invariant Flattened(base, Steps(ops[..i]))
    {
      assert ops[..i + 1][..i] == ops[..i] && ops[i] in ops;
      Do(base, ops[i], Steps(ops[..i]));
    }
    assert ops[..|ops|] == ops;
  }
}
