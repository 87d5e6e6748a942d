/** EVLOCK_LOCK2 and EVLOCK_UNLOCK2: pairs of locks, taken in the order of their addresses. */
module Locks {

  type Thread = nat

  const ADDRESSES := 0x1_0000_0000_0000_0000

  /** The address of a lock; 0 is the null pointer, which locks nothing. */
  type Lock = l: int | 0 <= l < ADDRESSES

  /** Where a thread is; first and second are _lock1_tmplock and _lock2_tmplock. */
  datatype Phase =
    | Idle
    | Wants(first: Lock, second: Lock)
    | HasFirst(first: Lock, second: Lock)
    | HasBoth(first: Lock, second: Lock)
    | HasGivenSecond(first: Lock, second: Lock)

  type State = map<Thread, Phase>

  /** _EVLOCK_SORTLOCKS. */
  function SortLocks(a: Lock, b: Lock): (r: (Lock, Lock))
    ensures r == (a, b) || r == (b, a)
    ensures r.0 == 0 || r.1 == 0 || r.0 <= r.1
  {
    if a != 0 && b != 0 && a > b then (b, a) else (a, b)
  }

  function Held(p: Phase): set<Lock>
  {
    match p
    case Idle => {}
    case Wants(_, _) => {}
    case HasFirst(first, _) => {first} - {0}
    case HasBoth(first, second) => {first, second} - {0}
    case HasGivenSecond(first, _) => {first} - {0}
  }

  /** No other thread holds l. */
  ghost predicate Free(s: State, t: Thread, l: Lock)
  {
    forall u :: u in s && u != t ==> l !in Held(s[u])
  }

  /** Thread t can take its next step: only acquiring can block. */
  ghost predicate CanStep(s: State, t: Thread)
    requires t in s
  {
    match s[t]
    case Wants(first, _) => Free(s, t, first)
    case HasFirst(_, second) => Free(s, t, second)
    case _ => true
  }

  /** The next step of a thread; (a, b) are the locks of its next EVLOCK_LOCK2. */
  function After(p: Phase, a: Lock, b: Lock, sorted: bool): Phase
  {
    match p
    case Idle => if sorted then Wants(SortLocks(a, b).0, SortLocks(a, b).1) else Wants(a, b)
    case Wants(first, second) => HasFirst(first, second)
    case HasFirst(first, second) => HasBoth(first, second)
    case HasBoth(first, second) => HasGivenSecond(first, second)
    case HasGivenSecond(_, _) => Idle
  }

  /** One event of a run: thread t goes on. */
  datatype Event = Event(t: Thread, a: Lock, b: Lock)

  ghost predicate Runs(s: State, es: seq<Event>, sorted: bool)
    decreases |es|
  {
    es == [] || (es[0].t in s && CanStep(s, es[0].t) && Runs(Next(s, es[0], sorted), es[1..], sorted))
  }

  ghost function Next(s: State, e: Event, sorted: bool): State
    requires e.t in s
  {
    s[e.t := After(s[e.t], e.a, e.b, sorted)]
  }

  ghost function Final(s: State, es: seq<Event>, sorted: bool): State
    requires Runs(s, es, sorted)
    decreases |es|
  {
    if es == [] then s else Final(Next(s, es[0], sorted), es[1..], sorted)
  }

  ghost predicate Exclusive(s: State)
  {
    forall t, u :: t in s && u in s && t != u ==> Held(s[t]) !! Held(s[u])
  }

  ghost predicate InOrder(s: State)
  {
    forall t :: t in s && s[t] != Idle ==> s[t].first == 0 || s[t].second == 0 || s[t].first <= s[t].second
  }

  ghost predicate AllIdle(s: State)
  {
    forall t :: t in s ==> s[t] == Idle
  }

  lemma NextExclusive(s: State, e: Event, sorted: bool)
    requires Exclusive(s) && e.t in s && CanStep(s, e.t)
    ensures Exclusive(Next(s, e, sorted))
  {
    var n := Next(s, e, sorted);
    assert Held(n[e.t]) <= Held(s[e.t]) || (s[e.t].Wants? && Held(n[e.t]) == {s[e.t].first} - {0})
                           || (s[e.t].HasFirst? && Held(n[e.t]) == Held(s[e.t]) + ({s[e.t].second} - {0}));
  }

  /** No lock is ever held by two threads, in whatever order the locks are taken. */
  lemma {:induction false} NeverShared(s: State, es: seq<Event>, sorted: bool)
    requires Exclusive(s) && Runs(s, es, sorted)
    ensures Exclusive(Final(s, es, sorted))
    decreases |es|
  {
    if es != [] {
      NextExclusive(s, es[0], sorted);
      NeverShared(Next(s, es[0], sorted), es[1..], sorted);
    }
  }

  lemma {:induction false} StaysInOrder(s: State, es: seq<Event>)
    requires InOrder(s) && Runs(s, es, true)
    ensures InOrder(Final(s, es, true))
    decreases |es|
  {
    if es != [] {
      StaysInOrder(Next(s, es[0], true), es[1..]);
    }
  }

  /** Who a blocked thread waits for can go on, or waits for a lock with a higher address. */
  lemma SomeoneGoesOn(s: State, t: Thread) returns (u: Thread)
    requires InOrder(s) && Exclusive(s) && t in s && s[t] != Idle
    ensures u in s && s[u] != Idle && CanStep(s, u)
    decreases if s[t].Wants? then ADDRESSES - s[t].first else if s[t].HasFirst? then ADDRESSES - s[t].second else 0
  {
    if CanStep(s, t) {
      u := t;
    } else {
      var wanted := if s[t].Wants? then s[t].first else s[t].second;
      var h :| h in s && h != t && wanted in Held(s[h]);
      if s[h].HasFirst? && !CanStep(s, h) {
        var w :| w in s && w != h && s[h].second in Held(s[w]);
        assert s[h].second != 0 && s[h].first == wanted && s[h].first in Held(s[h]);
        u := SomeoneGoesOn(s, h);
      } else {
        u := h;
      }
    }
  }

  /** With sorted pairs, no run from the start reaches a state where every busy thread is blocked. */
  lemma NoDeadlock(s: State, es: seq<Event>, t: Thread) returns (u: Thread)
    requires AllIdle(s) && Runs(s, es, true) && t in Final(s, es, true) && Final(s, es, true)[t] != Idle
    ensures u in Final(s, es, true) && Final(s, es, true)[u] != Idle && CanStep(Final(s, es, true), u)
  {
    NeverShared(s, es, true);
    StaysInOrder(s, es);
    u := SomeoneGoesOn(Final(s, es, true), t);
  }

  /** Without the sorting, two threads that name two locks in opposite orders can block each other. */
  lemma UnsortedDeadlock(a: Lock, b: Lock)
    requires a != 0 && b != 0 && a != b
    ensures exists s: State, es: seq<Event> :: AllIdle(s) && Runs(s, es, false) && Final(s, es, false) != map[] &&
              forall t :: t in Final(s, es, false) ==> Final(s, es, false)[t] != Idle && !CanStep(Final(s, es, false), t)
  {
    var s: State := map[1 := Idle, 2 := Idle];
    var e1, e2 := Event(1, a, b), Event(2, b, a);
    var s1 := Next(s, e1, false);
    var s2 := Next(s1, e2, false);
    var s3 := Next(s2, e1, false);
    var s4 := Next(s3, e2, false);
    assert s4 == map[1 := HasFirst(a, b), 2 := HasFirst(b, a)];
    assert Runs(s4, [], false) && Runs(s3, [e2], false) && Runs(s2, [e1, e2], false);
    assert Runs(s1, [e2, e1, e2], false) && Runs(s, [e1, e2, e1, e2], false);
    assert [e2][1..] == [] && [e1, e2][1..] == [e2] && [e2, e1, e2][1..] == [e1, e2];
    assert [e1, e2, e1, e2][1..] == [e2, e1, e2];
    assert Final(s2, [e1, e2], false) == Final(s3, [e2], false) == s4;
    assert Final(s, [e1, e2, e1, e2], false) == Final(s1, [e2, e1, e2], false) == s4;
    assert b in Held(s4[2]) && a in Held(s4[1]);
  }
}
