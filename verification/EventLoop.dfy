/** The event loop: queues of active events by priority, and the counters that tell when the loop may stop. */
module EventLoops {
  import opened TailQueues

  type Event = nat
  type Callback = nat

  /** EVLIST_INSERTED, EVLIST_ACTIVE, EVLIST_TIMEOUT. */
  datatype List = Inserted | Active | Timeout

  /** What a callback, or the backend, does to the loop. */
  datatype Action =
    | Activate(e: Event, byTimeout: bool)
    | Add(e: Event, timeout: bool, refused: bool)
    | Del(e: Event)
    | Schedule(cb: Callback)
    | Cancel(cb: Callback)
    | LoopBreak
    | LoopExit

  /** The state of the loop as callbacks see and change it. */
  datatype Loop = Loop(flags: set<(Event, List)>, inserted: seq<Event>, queues: seq<seq<Event>>, byTimeout: set<Event>,
                       running: int, goOn: bool, broken: bool, gotterm: bool, deferred: seq<Callback>)

  /** An event whose callback is about to run, and the state in which the loop finds it. */
  datatype Start = Start(e: Event, found: Loop)

  /** A round of the loop: what it found after dispatch, what it called and returned, and what that left. */
  datatype Round = Round(found: Loop, started: seq<Start>, ran: seq<Callback>, n: int, left: Loop)

  /** Why the loop has stopped; Waiting when it goes on to another dispatch. */
  datatype Outcome = NoEvents | Terminated | Waiting

  const MAX_DEFERRED := 16

  ghost function Counted(flags: set<(Event, List)>, internal: set<Event>): set<(Event, List)>
  {
    set m | m in flags && m.0 !in internal
  }

  lemma CountedInsert(flags: set<(Event, List)>, internal: set<Event>, m: (Event, List))
    requires m !in flags
    ensures |Counted(flags + {m}, internal)| == |Counted(flags, internal)| + if m.0 in internal then 0 else 1
  {
    if m.0 in internal {
      assert Counted(flags + {m}, internal) == Counted(flags, internal);
    } else {
      assert Counted(flags + {m}, internal) == Counted(flags, internal) + {m};
    }
  }

  lemma CountedRemove(flags: set<(Event, List)>, internal: set<Event>, m: (Event, List))
    requires m in flags
    ensures |Counted(flags - {m}, internal)| == |Counted(flags, internal)| - if m.0 in internal then 0 else 1
  {
    CountedInsert(flags - {m}, internal, m);
    assert flags - {m} + {m} == flags;
  }

  ghost predicate Empty(queues: seq<seq<Event>>, below: int)
  {
    forall i :: 0 <= i < below && i < |queues| ==> queues[i] == []
  }

  /** There are active events, or deferred callbacks. */
  ghost predicate Busy(s: Loop)
  {
    !Empty(s.queues, |s.queues|) || s.deferred != []
  }

  /** What the i-th callback does. */
  function Nth(script: seq<seq<Action>>, i: nat): seq<Action>
  {
    if i < |script| then script[i] else []
  }

  function Rest(script: seq<seq<Action>>, n: nat): seq<seq<Action>>
  {
    if n <= |script| then script[n..] else []
  }

  lemma RestOne(script: seq<seq<Action>>, n: nat, i: nat)
    ensures Nth(Rest(script, n), i) == Nth(script, n + i) && Rest(Rest(script, n), i) == Rest(script, n + i)
    ensures Rest(script, 0) == script && (script == [] ==> Rest(script, n) == [])
  {
  }

  ghost function Events(ss: seq<Start>): seq<Event>
  {
    seq(|ss|, i requires 0 <= i < |ss| => ss[i].e)
  }

  /** How many of the events are not internal. */
  ghost function Real(es: seq<Event>, internal: set<Event>): nat
  {
    if es == [] then 0 else Real(es[..|es| - 1], internal) + if es[|es| - 1] in internal then 0 else 1
  }

  lemma {:induction false} RealConcat(a: seq<Event>, b: seq<Event>, internal: set<Event>)
    ensures Real(a + b, internal) == Real(a, internal) + Real(b, internal)
  {
    if b == [] {
      assert a + b == a;
    } else {
      RealConcat(a, b[..|b| - 1], internal);
      assert (a + b)[..|a + b| - 1] == a + b[..|b| - 1];
    }
  }

  /** What is called where callbacks do nothing: the queues in order, up to the first with an event that is not internal. */
  ghost function Served(qs: seq<seq<Event>>, internal: set<Event>): seq<Event>
  {
    if qs == [] then [] else if Real(qs[0], internal) > 0 then qs[0] else qs[0] + Served(qs[1..], internal)
  }

  ghost function Joined(qs: seq<seq<Event>>): seq<Event>
  {
    if qs == [] then [] else qs[0] + Joined(qs[1..])
  }

  lemma {:induction false} JoinedFrom(qs: seq<seq<Event>>, i: nat)
    requires i < |qs| && Empty(qs, i)
    ensures Joined(qs) == qs[i] + Joined(qs[i + 1..])
  {
    if i > 0 {
      JoinedFrom(qs[1..], i - 1);
      assert qs[1..][i..] == qs[i + 1..];
      assert qs[0] == [];
    }
  }

  lemma JoinedAt(qs: seq<seq<Event>>, i: nat)
    requires i < |qs| && Empty(qs, i)
    ensures Joined(qs) == qs[i] + Joined(qs[i := []])
  {
    hide Joined;
    var rs := qs[i := []];
    assert rs[i + 1..] == qs[i + 1..];
    JoinedFrom(qs, i);
    JoinedFrom(rs, i);
    assert [] + Joined(rs[i + 1..]) == Joined(rs[i + 1..]);
  }

  lemma Assoc(a: seq<Event>, b: seq<Event>, c: seq<Event>)
    ensures a + (b + c) == a + b + c && (c == [] ==> b + c == b)
  {
  }

  lemma ServedFrom(qs: seq<seq<Event>>, i: nat, internal: set<Event>)
    requires i < |qs|
    ensures Served(qs[i..], internal) == if Real(qs[i], internal) > 0 then qs[i] else qs[i] + Served(qs[i + 1..], internal)
  {
    assert qs[i..][1..] == qs[i + 1..];
  }

  lemma NoneServed(qs: seq<seq<Event>>, i: nat, internal: set<Event>)
    requires i < |qs| && qs[i] == []
    ensures Served(qs[i..], internal) == Served(qs[i + 1..], internal)
  {
    assert qs[i..][1..] == qs[i + 1..];
  }

  lemma {:induction false} AllServed(qs: seq<seq<Event>>, internal: set<Event>)
    ensures Empty(qs, |qs|) ==> Served(qs, internal) == []
    ensures Served(qs[|qs|..], internal) == []
  {
    if Empty(qs, |qs|) && qs != [] {
      AllServed(qs[1..], internal);
    }
  }

  class EventBase {
    const internal: set<Event>
    const persist: set<Event>
    /** Events for reading, writing or signals. */
    const io: set<Event>
    const priority: map<Event, nat>

    /** The bits of ev_flags. */
    var flags: set<(Event, List)>
    var inserted: seq<Event>
    var timed: set<Event>
    var queues: seq<seq<Event>>
    /** The events with EV_TIMEOUT in ev_res. */
    var byTimeout: set<Event>
    var eventCount: int
    var eventCountActive: int
    var virtualCount: nat
    var runningPriority: int
    var eventContinue: bool
    var eventBreak: bool
    var eventGotterm: bool
    var deferred: seq<Callback>
    var queued: set<Callback>
    var deferCount: int
    ghost var starts: seq<Start>

    function Pri(e: Event): nat
    {
      if e in priority then priority[e] else 0
    }

    ghost predicate Valid()
      reads this
    {
      && Lists() && Deferred()
      && eventCount == |Counted(flags, internal)| && eventCountActive == Total(queues)
      && (forall e :: e in internal ==> Pri(e) == 0)
    }

    /** A flag is set just for the events of its list, and an active event is in the queue of its priority. */
    ghost predicate Lists()
      reads `flags, `inserted, `timed, `queues
    {
      && Distinct(inserted) && (forall e :: e in inserted <==> (e, Inserted) in flags)
      && (forall e :: e in timed <==> (e, Timeout) in flags)
      && (forall e :: (e, Active) in flags ==> Pri(e) < |queues| && e in queues[Pri(e)])
      && (forall p :: 0 <= p < |queues| ==> Distinct(queues[p]))
      && (forall p, e {:trigger e in queues[p]} :: 0 <= p < |queues| && e in queues[p] ==> Pri(e) == p && (e, Active) in flags)
      && (forall e :: e in priority ==> priority[e] < |queues|) && queues != []
    }

    ghost predicate Deferred()
      reads `deferred, `queued, `deferCount
    {
      Distinct(deferred) && (forall cb :: cb in deferred <==> cb in queued) && deferCount == |deferred|
    }

    ghost function State(): Loop
      reads this
    {
      Loop(flags, inserted, queues, byTimeout, runningPriority, eventContinue, eventBreak, eventGotterm, deferred)
    }

    /** event_queue_insert. */
    ghost function With(s: Loop, e: Event, q: List): Loop
    {
      if (e, q) in s.flags then s
      else
        var t := s.(flags := s.flags + {(e, q)});
        match q
        case Inserted => t.(inserted := s.inserted + [e])
        case Active => if Pri(e) < |s.queues| then t.(queues := s.queues[Pri(e) := s.queues[Pri(e)] + [e]]) else t
        case Timeout => t
    }

    /** event_queue_remove, if the event is on the list. */
    ghost function Without(s: Loop, e: Event, q: List): Loop
    {
      if (e, q) !in s.flags then s
      else
        var t := s.(flags := s.flags - {(e, q)});
        match q
        case Inserted => t.(inserted := Remove(s.inserted, e))
        case Active => if Pri(e) < |s.queues| then t.(queues := s.queues[Pri(e) := Remove(s.queues[Pri(e)], e)]) else t
        case Timeout => t
    }

    ghost function Activated(s: Loop, e: Event, timeout: bool): Loop
    {
      if (e, Active) in s.flags then s.(byTimeout := if timeout then s.byTimeout + {e} else s.byTimeout)
      else With(s.(byTimeout := if timeout then s.byTimeout + {e} else s.byTimeout - {e},
                   goOn := s.goOn || Pri(e) < s.running), e, Active)
    }

    ghost function Added(s: Loop, e: Event, timeout: bool, refused: bool): Loop
    {
      var asks := e in io && (e, Inserted) !in s.flags && (e, Active) !in s.flags;
      var t := if asks then With(s, e, Inserted) else s;
      if asks && refused then s
      else if !timeout then t
      else With(if e in t.byTimeout then Without(Without(t, e, Timeout), e, Active) else Without(t, e, Timeout), e, Timeout)
    }

    ghost function Deleted(s: Loop, e: Event): Loop
    {
      Without(Without(Without(s, e, Timeout), e, Active), e, Inserted)
    }

    /** What one action does. */
    ghost function Done(s: Loop, a: Action): Loop
    {
      match a
      case Activate(e, byTimeout) => Activated(s, e, byTimeout)
      case Add(e, timeout, refused) => Added(s, e, timeout, refused)
      case Del(e) => Deleted(s, e)
      case Schedule(cb) => if cb in s.deferred then s else s.(deferred := s.deferred + [cb])
      case Cancel(cb) => s.(deferred := Remove(s.deferred, cb))
      case LoopBreak => s.(broken := true)
      case LoopExit => s.(gotterm := true)
    }

    ghost function AllDone(s: Loop, actions: seq<Action>): Loop
    {
      if actions == [] then s else Done(AllDone(s, actions[..|actions| - 1]), actions[|actions| - 1])
    }

    /** An event goes off its lists before its callback runs; a persistent one only off the active queue. */
    ghost function Taken(s: Loop, e: Event): Loop
    {
      if e in persist then Without(s, e, Active) else Deleted(s, e)
    }

    /** The state after the events have been called one after the other. */
    ghost function Final(s: Loop, es: seq<Event>, script: seq<seq<Action>>): Loop
    {
      if es == [] then s
      else
        var n := |es| - 1;
        AllDone(Taken(Final(s, es[..n], script).(running := Pri(es[n])), es[n]), Nth(script, n))
    }

    /** The state after n deferred callbacks. */
    ghost function FinalDeferred(s: Loop, n: nat, script: seq<seq<Action>>): Loop
    {
      if n == 0 then s
      else
        var m := FinalDeferred(s, n - 1, script);
        AllDone(m.(deferred := if m.deferred == [] then [] else m.deferred[1..]), Nth(script, n - 1))
    }

    /** The event is the first of the first queue that is not empty. */
    ghost predicate Urgent(s: Start)
    {
      var p := Pri(s.e);
      p < |s.found.queues| && s.found.queues[p] != [] && s.e == s.found.queues[p][0] && Empty(s.found.queues, p)
    }

    /** Every callback was started for the first event of the first queue that was not empty. */
    ghost predicate Orderly()
      reads `starts
    {
      forall s :: s in starts ==> Urgent(s)
    }

    /** The callbacks were called one after the other from state s on, each found in the state that the others had left. */
    ghost predicate Traced(s: Loop, calls: seq<Start>, script: seq<seq<Action>>)
    {
      forall i :: 0 <= i < |calls| ==> Found(s, calls, i, script)
    }

    ghost predicate Found(s: Loop, calls: seq<Start>, i: nat, script: seq<seq<Action>>)
      requires i < |calls|
    {
      calls[i].found == Final(s, Events(calls)[..i], script).(running := Pri(calls[i].e))
    }

    /**
     * Another callback only follows where none has stopped the loop or activated a more urgent event, and it is of the same
     * queue, or all before it were internal.
     */
    ghost predicate GoesOn(calls: seq<Start>)
    {
      forall i :: 1 <= i < |calls| ==>
        !calls[i].found.goOn && !calls[i].found.broken
        && (Pri(calls[i].e) == Pri(calls[i - 1].e) || Real(Events(calls)[..i], internal) == 0)
    }

    /** The callbacks lead from state s to state t. */
    ghost predicate Calls(s: Loop, calls: seq<Start>, script: seq<seq<Action>>, t: Loop)
    {
      Traced(s, calls, script) && GoesOn(calls) && t == Final(s, Events(calls), script)
    }

    /** And no callback is left out: c is -1 after a break, else the number of callbacks that were not internal. */
    ghost predicate Stopped(calls: seq<Start>, s: Loop, c: int)
    {
      && c == (if calls != [] && s.broken then -1 else Real(Events(calls), internal))
      && (c == 0 ==> Empty(s.queues, |s.queues|))
      && (c > 0 ==> s.goOn || (Pri(calls[|calls| - 1].e) < |s.queues| && s.queues[Pri(calls[|calls| - 1].e)] == []))
    }

    /** At most MAX_DEFERRED deferred callbacks ran, always the first, until a break or until none was left. */
    ghost predicate RanDeferred(s: Loop, ran: seq<Callback>, script: seq<seq<Action>>)
    {
      var t := FinalDeferred(s, |ran|, script);
      && |ran| <= MAX_DEFERRED
      && (forall i :: 0 <= i < |ran| ==> FirstDeferred(s, ran, i, script))
      && (t.deferred == [] || |ran| == MAX_DEFERRED || (ran != [] && t.broken))
    }

    ghost predicate FirstDeferred(s: Loop, ran: seq<Callback>, i: nat, script: seq<seq<Action>>)
      requires i < |ran|
    {
      var t := FinalDeferred(s, i, script);
      t.deferred != [] && t.deferred[0] == ran[i] && (i > 0 ==> !t.broken)
    }

    /** What event_process_active does, whatever the callbacks do. */
    ghost predicate Processed(s: Loop, calls: seq<Start>, ran: seq<Callback>, c: int, left: Loop, script: seq<seq<Action>>)
    {
      var mid := Final(s, Events(calls), script);
      && (forall x :: x in calls ==> Urgent(x)) && Calls(s, calls, script, mid) && Stopped(calls, mid, c)
      && (c < 0 ==> ran == [] && left == mid.(running := -1))
      && (c >= 0 ==> RanDeferred(mid, ran, Rest(script, |calls|))
                     && left == FinalDeferred(mid, |ran|, Rest(script, |calls|)).(running := -1))
    }

    /** The second half of event_queue_insert: the flag is set and the event linked in. */
    method Link(e: Event, q: List)
      requires Lists() && (e, q) !in flags && eventCountActive == Total(queues)
      modifies `flags, `inserted, `timed, `queues, `eventCountActive
      ensures Lists() && flags == old(flags) + {(e, q)} && eventCountActive == Total(queues)
      ensures queues == if q == Active then old(queues[Pri(e) := queues[Pri(e)] + [e]]) else old(queues)
      ensures State() == With(old(State()), e, q)
    {
      flags := flags + {(e, q)};
      match q
      case Inserted =>
        AppendDistinct(inserted, e);
        inserted := inserted + [e];
      case Active =>
        eventCountActive := eventCountActive + 1;
        AppendDistinct(queues[Pri(e)], e);
        TotalChanged(queues, Pri(e), queues[Pri(e)] + [e]);
        queues := queues[Pri(e) := queues[Pri(e)] + [e]];
      case Timeout =>
        timed := timed + {e};
    }

    /** event_queue_insert. */
    method QueueInsert(e: Event, q: List)
      requires Valid() && ((e, q) in flags ==> q == Active)
      modifies `flags, `inserted, `timed, `queues, `eventCount, `eventCountActive
      ensures Valid() && flags == old(flags) + {(e, q)}
      ensures queues == if q == Active && (e, q) !in old(flags) then old(queues[Pri(e) := queues[Pri(e)] + [e]]) else old(queues)
      ensures State() == With(old(State()), e, q)
    {
      hide Lists;
      if (e, q) in flags {
        return;
      }
      CountedInsert(flags, internal, (e, q));
      if e !in internal {
        eventCount := eventCount + 1;
      }
      Link(e, q);
    }

    /** The second half of event_queue_remove. */
    method Unlink(e: Event, q: List)
      requires Lists() && (e, q) in flags && eventCountActive == Total(queues)
      modifies `flags, `inserted, `timed, `queues, `eventCountActive
      ensures Lists() && flags == old(flags) - {(e, q)} && eventCountActive == Total(queues)
      ensures queues == if q == Active then old(queues[Pri(e) := Remove(queues[Pri(e)], e)]) else old(queues)
      ensures State() == Without(old(State()), e, q)
    {
      flags := flags - {(e, q)};
      match q
      case Inserted =>
        RemoveDistinct(inserted, e);
        inserted := Remove(inserted, e);
      case Active =>
        eventCountActive := eventCountActive - 1;
        RemoveDistinct(queues[Pri(e)], e);
        TotalChanged(queues, Pri(e), Remove(queues[Pri(e)], e));
        queues := queues[Pri(e) := Remove(queues[Pri(e)], e)];
      case Timeout =>
        timed := timed - {e};
    }

    /** event_queue_remove. */
    method QueueRemove(e: Event, q: List)
      requires Valid() && (e, q) in flags
      modifies `flags, `inserted, `timed, `queues, `eventCount, `eventCountActive
      ensures Valid() && flags == old(flags) - {(e, q)}
      ensures queues == if q == Active then old(queues[Pri(e) := Remove(queues[Pri(e)], e)]) else old(queues)
      ensures Fewer(old(queues), queues) && State() == Without(old(State()), e, q)
    {
      assert q == Active ==> e in queues[Pri(e)];
      if q == Active {
        RemoveDistinct(queues[Pri(e)], e);
      }
      hide Lists;
      CountedRemove(flags, internal, (e, q));
      if e !in internal {
        eventCount := eventCount - 1;
      }
      Unlink(e, q);
    }

    /** event_active_nolock. */
    method EventActive(e: Event, timeout: bool)
      requires Valid()
      modifies `flags, `inserted, `timed, `queues, `eventCount, `eventCountActive, `byTimeout, `eventContinue
      ensures Valid() && flags == old(flags) + {(e, Active)}
      ensures queues == if (e, Active) in old(flags) then old(queues) else old(queues[Pri(e) := queues[Pri(e)] + [e]])
      ensures |queues| == old(|queues|) && Pri(e) < |queues|
      ensures eventContinue == (old(eventContinue) || ((e, Active) !in old(flags) && Pri(e) < runningPriority))
      ensures e in byTimeout <==> timeout || ((e, Active) in old(flags) && e in old(byTimeout))
      ensures byTimeout - {e} == old(byTimeout) - {e}
      ensures State() == Activated(old(State()), e, timeout)
    {
      if (e, Active) in flags {
        if timeout {
          byTimeout := byTimeout + {e};
        }
        return;
      }
      byTimeout := if timeout then byTimeout + {e} else byTimeout - {e};
      if Pri(e) < runningPriority {
        eventContinue := true;
      }
      QueueInsert(e, Active);
    }

    /** event_add_internal; `refused` is the answer of evmap_io_add or evmap_signal_add, where they are asked. */
    method EventAdd(e: Event, timeout: bool, refused: bool) returns (result: int)
      requires Valid()
      modifies `flags, `inserted, `timed, `queues, `eventCount, `eventCountActive
      ensures Valid() && Fewer(old(queues), queues)
      ensures result == if refused && e in io && (e, Inserted) !in old(flags) && (e, Active) !in old(flags) then -1 else 0
      ensures result == -1 ==> flags == old(flags) && queues == old(queues) && inserted == old(inserted)
      ensures result == 0 ==>
                && ((e, Timeout) in flags <==> timeout || (e, Timeout) in old(flags))
                && ((e, Inserted) in flags <==> (e, Inserted) in old(flags) || (e in io && (e, Active) !in old(flags)))
                && ((e, Active) in flags <==> (e, Active) in old(flags) && !(timeout && e in byTimeout))
                && queues == (if (e, Active) in old(flags) && timeout && e in byTimeout
                              then old(queues[Pri(e) := Remove(queues[Pri(e)], e)]) else old(queues))
      ensures forall m: (Event, List) :: m.0 != e ==> (m in flags <==> m in old(flags))
      ensures State() == Added(old(State()), e, timeout, refused)
    {
      hide Lists;
      if e in io && (e, Inserted) !in flags && (e, Active) !in flags {
        if refused {
          return -1;
        }
        QueueInsert(e, Inserted);
      }
      result := 0;
      if timeout {
        if (e, Timeout) in flags {
          QueueRemove(e, Timeout);
        }
        if (e, Active) in flags && e in byTimeout {
          QueueRemove(e, Active);
        }
        QueueInsert(e, Timeout);
      }
    }

    /** event_del_internal. */
    method EventDel(e: Event)
      requires Valid()
      modifies `flags, `inserted, `timed, `queues, `eventCount, `eventCountActive
      ensures Valid() && flags == old(flags) - {(e, Timeout), (e, Active), (e, Inserted)}
      ensures queues == if (e, Active) in old(flags) then old(queues[Pri(e) := Remove(queues[Pri(e)], e)]) else old(queues)
      ensures Fewer(old(queues), queues) && State() == Deleted(old(State()), e)
    {
      hide Lists;
      if (e, Timeout) in flags {
        QueueRemove(e, Timeout);
      }
      if (e, Active) in flags {
        QueueRemove(e, Active);
      }
      if (e, Inserted) in flags {
        QueueRemove(e, Inserted);
      }
    }

    /** event_deferred_cb_schedule. */
    method DeferredSchedule(cb: Callback)
      requires Valid()
      modifies `deferred, `queued, `deferCount
      ensures Valid() && deferred == if cb in old(queued) then old(deferred) else old(deferred) + [cb]
    {
      if cb !in queued {
        AppendDistinct(deferred, cb);
        queued := queued + {cb};
        deferred := deferred + [cb];
        deferCount := deferCount + 1;
      }
    }

    /** event_deferred_cb_cancel. */
    method DeferredCancel(cb: Callback)
      requires Valid()
      modifies `deferred, `queued, `deferCount
      ensures Valid() && cb !in deferred && deferred == if cb in old(queued) then Remove(old(deferred), cb) else old(deferred)
    {
      if cb in queued {
        RemoveDistinct(deferred, cb);
        deferred := Remove(deferred, cb);
        deferCount := deferCount - 1;
        queued := queued - {cb};
      }
    }

    /** While a callback runs: nothing more urgent is active, or the loop has been told to look again. */
    ghost predicate Settled()
      reads `eventContinue, `queues, `runningPriority
    {
      (eventContinue || Empty(queues, runningPriority)) && (eventContinue ==> runningPriority > 0)
    }

    /** One action of a callback. */
    method Do(a: Action)
      requires Valid()
      modifies `flags, `inserted, `timed, `queues, `eventCount, `eventCountActive, `byTimeout, `eventContinue,
               `eventBreak, `eventGotterm, `deferred, `queued, `deferCount
      ensures Valid() && |queues| == old(|queues|) && (old(Settled()) ==> Settled()) && State() == Done(old(State()), a)
    {
      hide Lists;
      if a.Cancel? {
        RemoveAbsent(a);
      }
      match a
      case Activate(e, byTimeout) => EventActive(e, byTimeout);
      case Add(e, timeout, refused) => var _ := EventAdd(e, timeout, refused);
      case Del(e) => EventDel(e);
      case Schedule(cb) => DeferredSchedule(cb);
      case Cancel(cb) => DeferredCancel(cb);
      case LoopBreak => eventBreak := true;
      case LoopExit => eventGotterm := true;
    }

    lemma RemoveAbsent(a: Action)
      requires Valid() && a.Cancel?
      ensures a.cb in queued <==> a.cb in deferred
      ensures a.cb !in queued ==> Remove(deferred, a.cb) == deferred
    {
      if a.cb !in queued {
        RemoveAbsentFrom(deferred, a.cb);
      }
    }

    method DoAll(actions: seq<Action>)
      requires Valid()
      modifies `flags, `inserted, `timed, `queues, `eventCount, `eventCountActive, `byTimeout, `eventContinue,
               `eventBreak, `eventGotterm, `deferred, `queued, `deferCount
      ensures Valid() && |queues| == old(|queues|) && (old(Settled()) ==> Settled())
      ensures State() == AllDone(old(State()), actions)
    {
      for i := 0 to |actions|
        invariant Valid() && |queues| == old(|queues|) && (old(Settled()) ==> Settled())
        invariant State() == AllDone(old(State()), actions[..i])
      {
        assert actions[..i + 1][..i] == actions[..i];
        Do(actions[i]);
      }
      assert actions[..|actions|] == actions;
    }

    /** The first event of queue p is taken off; if it is not persistent, off the other lists too. */
    method TakeFirst(p: nat) returns (ev: Event)
      requires Valid() && p < |queues| && queues[p] != []
      modifies `flags, `inserted, `timed, `queues, `eventCount, `eventCountActive
      ensures Valid() && |queues| == old(|queues|) && Pri(ev) == p && ev == old(queues[p][0])
      ensures queues == old(queues[p := Remove(queues[p], ev)]) && |queues[p]| == old(|queues[p]|) - 1
      ensures flags == old(flags) - if ev in persist then {(ev, Active)} else {(ev, Active), (ev, Inserted), (ev, Timeout)}
      ensures State() == Taken(old(State()), ev)
    {
      ev := queues[p][0];
      RemoveDistinct(queues[p], ev);
      assert ev in queues[p];
      assert (ev, Active) in flags && Pri(ev) == p;
      hide Lists, Deferred;
      if ev in persist {
        QueueRemove(ev, Active);
      } else {
        EventDel(ev);
      }
    }

    /** The first event of queue p is taken off, and its callback runs. */
    method RunFirst(p: nat, actions: seq<Action>) returns (counts: bool)
      requires Valid() && Orderly() && runningPriority == p < |queues| && queues[p] != [] && Empty(queues, p) && !eventContinue
      modifies `flags, `inserted, `timed, `queues, `eventCount, `eventCountActive, `byTimeout, `eventContinue,
               `eventBreak, `eventGotterm, `deferred, `queued, `deferCount, `starts
      ensures Valid() && Orderly() && |queues| == old(|queues|) && Settled() && (p > 0 ==> counts)
      ensures var e := old(queues[p][0]);
              && Pri(e) == p && starts == old(starts) + [Start(e, old(State()))] && (counts <==> e !in internal)
              && State() == AllDone(Taken(old(State()), e), actions)
      ensures actions == [] ==> queues == old(queues)[p := old(queues[p])[1..]] && deferred == old(deferred)
      ensures actions == [] ==> eventBreak == old(eventBreak) && !eventContinue
    {
      hide Lists, Deferred;
      starts := starts + [Start(queues[p][0], State())];
      var ev := TakeFirst(p);
      counts := ev !in internal;
      DoAll(actions);
    }

    /** event_process_active_single_queue: script tells what each callback does. */
    method ProcessSingleQueue(p: nat, script: seq<seq<Action>>) returns (count: int, rest: seq<seq<Action>>)
      requires Valid() && Orderly() && runningPriority == p < |queues| && queues[p] != [] && Empty(queues, p) && !eventContinue
      modifies `flags, `inserted, `timed, `queues, `eventCount, `eventCountActive, `byTimeout, `eventContinue,
               `eventBreak, `eventGotterm, `deferred, `queued, `deferCount, `starts
      ensures Valid() && Orderly() && |queues| == old(|queues|) && old(starts) <= starts
      ensures var calls := starts[|old(starts)|..];
              && calls != [] && OfQueue(calls, p) && Calls(old(State()), calls, script, State())
              && rest == Rest(script, |calls|) && count == if eventBreak then -1 else Real(Events(calls), internal)
      ensures eventBreak || eventContinue || queues[p] == []
      ensures count == 0 ==> !eventContinue && Empty(queues, p + 1)
      ensures script == [] && !old(eventBreak) ==>
                && Events(starts[|old(starts)|..]) == old(queues[p]) && queues == old(queues)[p := []] && deferred == old(deferred)
                && !eventBreak && !eventContinue
    {
      hide Lists, Deferred, Orderly, OfQueue, Calls, Real, Events, AllDone, Taken;
      count, rest := 0, script;
      ghost var calls: seq<Start> := [];
      NoCalls(State(), script, p);
      while queues[p] != []
        invariant Valid() && Orderly() && |queues| == old(|queues|) && starts == old(starts) + calls && starts[|old(starts)|..] == calls
        invariant !eventContinue && Empty(queues, p) && runningPriority == p
        invariant count == Real(Events(calls), internal) && rest == Rest(script, |calls|)
        invariant OfQueue(calls, p) && Calls(old(State()), calls, script, State())
        invariant calls == [] ==> State() == old(State())
        invariant calls != [] ==> !eventBreak && (p > 0 ==> count > 0)
        invariant script == [] ==>
                    && Events(calls) + queues[p] == old(queues[p]) && queues == old(queues)[p := queues[p]]
                    && eventBreak == old(eventBreak) && deferred == old(deferred)
        decreases |rest|, |queues[p]|
      {
        var actions := Nth(rest, 0);
        RestOne(script, |calls|, 0);
        RestOne(script, |calls|, 1);
        rest := Rest(rest, 1);
        ghost var found := State();
        ghost var x := Start(queues[p][0], found);
        var counts := RunFirst(p, actions);
        CallsMore(old(State()), calls, script, found, x, State(), p);
        calls := calls + [x];
        assert starts[|old(starts)|..] == calls;
        if counts {
          count := count + 1;
        }
        if eventBreak {
          return -1, rest;
        }
        if eventContinue {
          break;
        }
      }
    }

    ghost predicate OfQueue(calls: seq<Start>, p: nat)
    {
      forall x :: x in calls ==> Pri(x.e) == p
    }

    lemma NoCalls(s: Loop, script: seq<seq<Action>>, p: nat)
      ensures Calls(s, [], script, s) && Events([]) == [] && Real([], internal) == 0 && OfQueue([], p)
    {
    }

    lemma CallsMore(s: Loop, calls: seq<Start>, script: seq<seq<Action>>, t: Loop, x: Start, u: Loop, p: nat)
      requires Calls(s, calls, script, t) && OfQueue(calls, p) && Pri(x.e) == p == t.running && x.found == t
      requires calls != [] ==> !t.goOn && !t.broken
      requires u == AllDone(Taken(t, x.e), Nth(script, |calls|))
      ensures Calls(s, calls + [x], script, u) && OfQueue(calls + [x], p)
      ensures Events(calls + [x]) == Events(calls) + [x.e]
      ensures Real(Events(calls + [x]), internal) == Real(Events(calls), internal) + if x.e in internal then 0 else 1
    {
      hide AllDone, Taken, Final;
      TracedMore(s, calls, script, x);
      var more := calls + [x];
      forall i | 1 <= i < |more|
        ensures !more[i].found.goOn && !more[i].found.broken && Pri(more[i].e) == Pri(more[i - 1].e)
      {
        assert more[i - 1] in calls;
        if i < |calls| {
          assert more[i] == calls[i] && more[i] in calls;
        }
      }
    }

    lemma TracedMore(s: Loop, calls: seq<Start>, script: seq<seq<Action>>, x: Start)
      requires Traced(s, calls, script) && x.found == Final(s, Events(calls), script).(running := Pri(x.e))
      ensures Traced(s, calls + [x], script) && Events(calls + [x]) == Events(calls) + [x.e]
      ensures Final(s, Events(calls + [x]), script) == AllDone(Taken(x.found, x.e), Nth(script, |calls|))
      ensures Real(Events(calls + [x]), internal) == Real(Events(calls), internal) + if x.e in internal then 0 else 1
    {
      hide AllDone, Taken;
      var more := calls + [x];
      assert Events(more) == Events(calls) + [x.e];
      assert Events(more)[..|calls|] == Events(calls);
      forall i | 0 <= i < |more| ensures Found(s, more, i, script) {
        assert Events(more)[..i] == Events(calls)[..i];
        if i < |calls| {
          assert Found(s, calls, i, script);
        }
      }
    }

    lemma {:induction false} FinalConcat(s: Loop, a: seq<Event>, b: seq<Event>, script: seq<seq<Action>>, p: int)
      requires b != []
      ensures Final(s, a + b, script) == Final(Final(s, a, script).(running := p), b, Rest(script, |a|))
    {
      hide AllDone, Taken;
      var n := |b| - 1;
      RestOne(script, |a|, n);
      assert (a + b)[..|a| + n] == a + b[..n];
      if n == 0 {
        assert a + b[..n] == a;
      } else {
        FinalConcat(s, a, b[..n], script, p);
      }
    }

    /** The calls of one more queue. */
    lemma TracedJoin(s: Loop, calls: seq<Start>, more: seq<Start>, script: seq<seq<Action>>, p: nat)
      requires Traced(s, calls, script) && more != [] && forall x :: x in more ==> Pri(x.e) == p
      requires Traced(Final(s, Events(calls), script).(running := p), more, Rest(script, |calls|))
      ensures Traced(s, calls + more, script) && Events(calls + more) == Events(calls) + Events(more)
      ensures Final(s, Events(calls + more), script) == Final(Final(s, Events(calls), script).(running := p), Events(more), Rest(script, |calls|))
      ensures Real(Events(calls + more), internal) == Real(Events(calls), internal) + Real(Events(more), internal)
    {
      hide Final;
      var all, m := calls + more, Final(s, Events(calls), script).(running := p);
      assert Events(all) == Events(calls) + Events(more);
      RealConcat(Events(calls), Events(more), internal);
      FinalConcat(s, Events(calls), Events(more), script, p);
      forall i | 0 <= i < |all| ensures Found(s, all, i, script) {
        if i < |calls| {
          assert Found(s, calls, i, script) && Events(all)[..i] == Events(calls)[..i];
        } else {
          var k := i - |calls|;
          assert Found(m, more, k, Rest(script, |calls|)) && all[i] == more[k] && more[k] in more;
          assert Events(all)[..i] == Events(calls) + Events(more)[..k];
          if k == 0 {
            assert Events(more)[..k] == [] && Events(calls) + [] == Events(calls);
            NoneFinal(m, Rest(script, |calls|));
          } else {
            FinalConcat(s, Events(calls), Events(more)[..k], script, p);
          }
        }
      }
    }

    lemma NoneFinal(s: Loop, script: seq<seq<Action>>)
      ensures Final(s, [], script) == s
    {
    }

    lemma GoesOnJoin(calls: seq<Start>, more: seq<Start>, p: nat)
      requires GoesOn(calls) && GoesOn(more) && more != [] && !more[0].found.goOn && (calls != [] ==> !more[0].found.broken)
      requires Real(Events(calls), internal) == 0 && OfQueue(more, p)
      ensures GoesOn(calls + more)
    {
      hide Real;
      var all := calls + more;
      forall i | 1 <= i < |all|
        ensures !all[i].found.goOn && !all[i].found.broken && (Pri(all[i].e) == Pri(all[i - 1].e) || Real(Events(all)[..i], internal) == 0)
      {
        if i < |calls| {
          assert Events(all)[..i] == Events(calls)[..i] && all[i] == calls[i] && all[i - 1] == calls[i - 1];
        } else if i == |calls| {
          assert Events(all)[..i] == Events(calls);
        } else {
          assert all[i] == more[i - |calls|] && all[i - 1] == more[i - 1 - |calls|];
          assert all[i] in more && all[i - 1] in more;
        }
      }
    }

    lemma FirstFound(m: Loop, more: seq<Start>, script: seq<seq<Action>>, p: nat)
      requires Traced(m, more, script) && more != [] && OfQueue(more, p) && m.running == p
      ensures more[0].found == m
    {
      hide AllDone, Taken;
      assert Found(m, more, 0, script) && Events(more)[..0] == [] && more[0] in more;
      NoneFinal(m, script);
    }

    /** The calls of one queue behind those of others, which were internal. */
    lemma CallsJoin(s: Loop, calls: seq<Start>, script: seq<seq<Action>>, t: Loop, p: nat, more: seq<Start>, u: Loop)
      requires Calls(s, calls, script, t) && Calls(t.(running := p), more, Rest(script, |calls|), u) && more != [] && OfQueue(more, p)
      requires Real(Events(calls), internal) == 0 && !t.goOn && (calls != [] ==> !t.broken)
      ensures Calls(s, calls + more, script, u) && Events(calls + more) == Events(calls) + Events(more)
      ensures Real(Events(calls + more), internal) == Real(Events(more), internal)
      ensures Rest(Rest(script, |calls|), |more|) == Rest(script, |calls + more|)
    {
      hide Final, Real, Events, Rest;
      FirstFound(t.(running := p), more, Rest(script, |calls|), p);
      TracedJoin(s, calls, more, script, p);
      GoesOnJoin(calls, more, p);
      RestOne(script, |calls|, |more|);
    }

    method TakeDeferred() returns (cb: Callback)
      requires Valid() && deferred != []
      modifies `deferred, `queued, `deferCount
      ensures Valid() && old(deferred) == [cb] + deferred
    {
      cb := deferred[0];
      RemoveDistinct(deferred, cb);
      assert deferred == [cb] + deferred[1..];
      queued := queued - {cb};
      deferred := Remove(deferred, cb);
      deferCount := deferCount - 1;
    }

    /** event_process_deferred_callbacks: first in, first out, and at most MAX_DEFERRED of them. */
    method ProcessDeferred(script: seq<seq<Action>>) returns (ran: seq<Callback>, rest: seq<seq<Action>>)
      requires Valid()
      modifies `flags, `inserted, `timed, `queues, `eventCount, `eventCountActive, `byTimeout, `eventContinue,
               `eventBreak, `eventGotterm, `deferred, `queued, `deferCount
      ensures Valid() && |queues| == old(|queues|) && rest == Rest(script, |ran|)
      ensures RanDeferred(old(State()), ran, script) && State() == FinalDeferred(old(State()), |ran|, script)
      ensures script == [] && !old(eventBreak) ==>
                ran + deferred == old(deferred) && (deferred == [] || |ran| == MAX_DEFERRED) && queues == old(queues)
    {
      hide Lists, Deferred, FirstDeferred, AllDone;
      ran, rest := [], script;
      while deferred != []
        invariant Valid() && |queues| == old(|queues|) && |ran| < MAX_DEFERRED && rest == Rest(script, |ran|)
        invariant State() == FinalDeferred(old(State()), |ran|, script) && (ran != [] ==> !eventBreak)
        invariant forall i :: 0 <= i < |ran| ==> FirstDeferred(old(State()), ran, i, script)
        invariant script == [] ==> ran + deferred == old(deferred) && eventBreak == old(eventBreak) && queues == old(queues)
        decreases MAX_DEFERRED - |ran|
      {
        RestOne(script, |ran|, 0);
        RestOne(script, |ran|, 1);
        var actions := Nth(rest, 0);
        rest := Rest(rest, 1);
        DeferredMore(old(State()), ran, deferred[0], script);
        var cb := RunDeferred(actions);
        ran := ran + [cb];
        if eventBreak || |ran| == MAX_DEFERRED {
          return;
        }
      }
    }

    /** The first deferred callback is taken off and runs. */
    method RunDeferred(actions: seq<Action>) returns (cb: Callback)
      requires Valid() && deferred != []
      modifies `flags, `inserted, `timed, `queues, `eventCount, `eventCountActive, `byTimeout, `eventContinue,
               `eventBreak, `eventGotterm, `deferred, `queued, `deferCount
      ensures Valid() && |queues| == old(|queues|) && cb == old(deferred)[0]
      ensures State() == AllDone(old(State()).(deferred := old(deferred)[1..]), actions)
      ensures actions == [] ==> queues == old(queues) && eventBreak == old(eventBreak) && deferred == old(deferred)[1..]
    {
      hide Lists, Deferred, Done;
      cb := TakeDeferred();
      assert deferred == old(deferred)[1..];
      DoAll(actions);
    }

    lemma DeferredMore(s: Loop, ran: seq<Callback>, cb: Callback, script: seq<seq<Action>>)
      requires forall i :: 0 <= i < |ran| ==> FirstDeferred(s, ran, i, script)
      requires var t := FinalDeferred(s, |ran|, script); t.deferred != [] && t.deferred[0] == cb && (ran != [] ==> !t.broken)
      ensures forall i :: 0 <= i < |ran| + 1 ==> FirstDeferred(s, ran + [cb], i, script)
    {
      hide FinalDeferred;
      forall i | 0 <= i < |ran| + 1 ensures FirstDeferred(s, ran + [cb], i, script) {
        if i < |ran| {
          assert FirstDeferred(s, ran, i, script);
        }
      }
    }

    /** The loop of event_process_active over the queues. */
    method ProcessQueues(script: seq<seq<Action>>) returns (c: int, rest: seq<seq<Action>>)
      requires Valid() && Orderly() && !eventContinue
      modifies `flags, `inserted, `timed, `queues, `eventCount, `eventCountActive, `byTimeout, `eventContinue,
               `eventBreak, `eventGotterm, `deferred, `queued, `deferCount, `starts, `runningPriority
      ensures Valid() && Orderly() && |queues| == old(|queues|) && old(starts) <= starts
      ensures var calls := starts[|old(starts)|..];
              Calls(old(State()), calls, script, State()) && Stopped(calls, State(), c) && rest == Rest(script, |calls|)
      ensures script == [] && !old(eventBreak) ==>
                && !eventBreak && deferred == old(deferred) && Events(starts[|old(starts)|..]) == Served(old(queues), internal)
                && Events(starts[|old(starts)|..]) + Joined(queues) == Joined(old(queues))
    {
      hide Lists, Deferred, Orderly, OfQueue, Calls, Real, Events, Served, Joined;
      c, rest := 0, script;
      ghost var calls: seq<Start> := [];
      NoCalls(State(), script, 0);
      for i := 0 to |queues|
        invariant Valid() && Orderly() && |queues| == old(|queues|) && starts == old(starts) + calls && starts[|old(starts)|..] == calls
        invariant !eventContinue && Empty(queues, i) && c == 0 && (calls != [] ==> !eventBreak)
        invariant Calls(old(State()), calls, script, State())
        invariant Real(Events(calls), internal) == 0 && rest == Rest(script, |calls|)
        invariant script == [] && !old(eventBreak) ==>
                    && !eventBreak && deferred == old(deferred) && Events(calls) + Served(queues[i..], internal) == Served(old(queues), internal)
                    && Events(calls) + Joined(queues) == Joined(old(queues))
      {
        ghost var qs := queues;
        if queues[i] != [] {
          ghost var t, before := State(), starts;
          runningPriority := i;
          c, rest := ProcessSingleQueue(i, rest);
          ghost var more := starts[|before|..];
          CallsJoin(old(State()), calls, script, t, i, more, State());
          assert starts == before + more && starts[|old(starts)|..] == calls + more;
          if script == [] && !old(eventBreak) {
            QueueServed(Events(calls), qs, i, Events(more));
          }
          LastOf(calls, more, i);
          calls := calls + more;
          if c < 0 {
            return;
          } else if c > 0 {
            break;
          }
        } else {
          NoneServed(qs, i, internal);
        }
      }
      AllServed(queues, internal);
    }

    lemma LastOf(calls: seq<Start>, more: seq<Start>, p: nat)
      requires more != [] && OfQueue(more, p)
      ensures Pri((calls + more)[|calls + more| - 1].e) == p
    {
      assert (calls + more)[|calls + more| - 1] == more[|more| - 1];
    }

    lemma QueueServed(es: seq<Event>, qs: seq<seq<Event>>, i: nat, more: seq<Event>)
      requires i < |qs| && Empty(qs, i) && more == qs[i]
      ensures es + Joined(qs) == es + more + Joined(qs[i := []])
      ensures es + Served(qs[i..], internal) == es + more + (if Real(more, internal) > 0 then [] else Served(qs[i := []][i + 1..], internal))
    {
      hide Real, Served, Joined, Empty;
      JoinedAt(qs, i);
      ServedFrom(qs, i, internal);
      Assoc(es, more, Joined(qs[i := []]));
      Assoc(es, more, if Real(more, internal) > 0 then [] else Served(qs[i := []][i + 1..], internal));
      assert qs[i := []][i + 1..] == qs[i + 1..];
    }

    lemma AllUrgent(calls: seq<Start>)
      requires Orderly() && |calls| <= |starts| && calls == starts[|starts| - |calls|..]
      ensures forall x :: x in calls ==> Urgent(x)
    {
      forall x | x in calls ensures Urgent(x) {
        assert x in starts;
      }
    }

    lemma CallsLead(s: Loop, calls: seq<Start>, script: seq<seq<Action>>, t: Loop)
      requires Calls(s, calls, script, t)
      ensures t == Final(s, Events(calls), script)
      ensures if calls == [] then t == s else Urgent(calls[0]) ==> Urgent(Start(calls[0].e, s))
      ensures calls == [] ==> Events(calls) == [] && Real(Events(calls), internal) == 0
    {
      hide AllDone, Taken;
      if calls != [] {
        assert Found(s, calls, 0, script) && Events(calls)[..0] == [];
        NoneFinal(s, script);
      }
    }

    /** event_process_active. */
    method ProcessActive(script: seq<seq<Action>>) returns (c: int, ran: seq<Callback>, rest: seq<seq<Action>>)
      requires Valid() && Orderly() && !eventContinue
      modifies `flags, `inserted, `timed, `queues, `eventCount, `eventCountActive, `byTimeout, `eventContinue,
               `eventBreak, `eventGotterm, `deferred, `queued, `deferCount, `starts, `runningPriority
      ensures Valid() && Orderly() && |queues| == old(|queues|) && old(starts) <= starts && runningPriority == -1
      ensures Processed(old(State()), starts[|old(starts)|..], ran, c, State(), script)
      ensures rest == Rest(script, |starts| - |old(starts)| + |ran|)
      ensures (exists p :: 0 <= p < |old(queues)| && old(queues)[p] != []) ==> starts != old(starts)
      ensures starts != old(starts) ==> Urgent(Start(starts[|old(starts)|].e, old(State())))
      ensures script == [] && !old(eventBreak) ==>
                && Events(starts[|old(starts)|..]) == Served(old(queues), internal)
                && c == Real(Served(old(queues), internal), internal)
                && Events(starts[|old(starts)|..]) + Joined(queues) == Joined(old(queues))
                && ran + deferred == old(deferred) && (deferred == [] || |ran| == MAX_DEFERRED)
    {
      hide Lists, Deferred, Orderly, Calls, Real, Events, Served, Joined, Urgent, Stopped, RanDeferred, Processed, Final, FinalDeferred, Empty, Rest;
      ghost var s := State();
      c, rest := ProcessQueues(script);
      ghost var calls, mid := starts[|old(starts)|..], State();
      assert starts == old(starts) + calls;
      AllUrgent(calls);
      FirstCall(s, calls, script, mid, c);
      RestOne(script, |calls|, 0);
      ran := [];
      if c < 0 {
        runningPriority := -1;
        ProcessedIs(s, calls, script, mid, c, ran, State());
        return;
      }
      ran, rest := ProcessDeferred(rest);
      RestOne(script, |calls|, |ran|);
      runningPriority := -1;
      ProcessedIs(s, calls, script, mid, c, ran, State());
    }

    lemma FirstCall(s: Loop, calls: seq<Start>, script: seq<seq<Action>>, mid: Loop, c: int)
      requires Calls(s, calls, script, mid) && Stopped(calls, mid, c) && forall x :: x in calls ==> Urgent(x)
      ensures calls == [] ==> forall p :: 0 <= p < |s.queues| ==> s.queues[p] == []
      ensures calls != [] ==> Urgent(Start(calls[0].e, s))
      ensures c < 0 ==> mid.broken
      ensures !mid.broken ==> c == Real(Events(calls), internal)
    {
      CallsLead(s, calls, script, mid);
    }

    lemma ProcessedIs(s: Loop, calls: seq<Start>, script: seq<seq<Action>>, mid: Loop, c: int, ran: seq<Callback>, left: Loop)
      requires Calls(s, calls, script, mid) && Stopped(calls, mid, c) && forall x :: x in calls ==> Urgent(x)
      requires c < 0 ==> ran == [] && left == mid.(running := -1)
      requires c >= 0 ==> RanDeferred(mid, ran, Rest(script, |calls|))
                          && left == FinalDeferred(mid, |ran|, Rest(script, |calls|)).(running := -1)
      ensures Processed(s, calls, ran, c, left, script)
    {
      hide Final, FinalDeferred, Stopped, RanDeferred, Urgent;
    }

    /** In one state only one event is the most urgent. */
    lemma OneUrgent(x: Start, y: Start)
      requires Urgent(x) && Urgent(y) && x.found.queues == y.found.queues
      ensures x.e == y.e
    {
      MostUrgent(x, Pri(y.e));
      MostUrgent(y, Pri(x.e));
    }

    lemma MostUrgent(x: Start, p: nat)
      requires Urgent(x) && p < |x.found.queues| && x.found.queues[p] != []
      ensures Pri(x.e) <= p
    {
    }

    /** Two runs of callbacks from one state go the same way as far as both go. */
    lemma {:induction false} SameCalls(s: Loop, a: seq<Start>, b: seq<Start>, script: seq<seq<Action>>, n: nat)
      requires Traced(s, a, script) && Traced(s, b, script) && n <= |a| && n <= |b|
      requires forall i :: 0 <= i < n ==> Urgent(a[i]) && Urgent(b[i])
      ensures a[..n] == b[..n]
    {
      hide Final, Urgent;
      if n > 0 {
        SameCalls(s, a, b, script, n - 1);
        assert Events(a)[..n - 1] == Events(b)[..n - 1] by { PrefixEvents(a, b, n - 1); }
        assert Found(s, a, n - 1, script) && Found(s, b, n - 1, script);
        OneUrgent(a[n - 1], b[n - 1]);
        assert a[..n] == a[..n - 1] + [a[n - 1]] && b[..n] == b[..n - 1] + [b[n - 1]];
      }
    }

    lemma PrefixEvents(a: seq<Start>, b: seq<Start>, n: nat)
      requires n <= |a| && n <= |b| && a[..n] == b[..n]
      ensures Events(a)[..n] == Events(b)[..n]
    {
      forall i | 0 <= i < n ensures Events(a)[..n][i] == Events(b)[..n][i] {
        assert a[..n][i] == b[..n][i];
      }
    }

    lemma FurtherFound(s: Loop, a: seq<Start>, b: seq<Start>, script: seq<seq<Action>>, mid: Loop)
      requires Calls(s, a, script, mid) && Traced(s, b, script) && |a| < |b| && b[..|a|] == a && forall x :: x in b ==> Urgent(x)
      ensures Events(b)[..|a|] == Events(a) && b[|a|].found == mid.(running := Pri(b[|a|].e)) && Urgent(b[|a|])
      ensures a != [] ==> b[|a| - 1] == a[|a| - 1]
      ensures a == [] ==> Real(Events(a), internal) == 0
    {
      hide Final, Urgent;
      var n := |a|;
      PrefixEvents(a, b, n);
      assert Events(a)[..n] == Events(a);
      assert Found(s, b, n, script) && b[n] in b;
      if n > 0 {
        assert b[n - 1] == b[..n][n - 1];
      } else {
        CallsLead(s, a, script, mid);
      }
    }

    /** A run that has stopped does not go on in another. */
    lemma NoFurther(s: Loop, a: seq<Start>, b: seq<Start>, script: seq<seq<Action>>, mid: Loop, c: int)
      requires Calls(s, a, script, mid) && Stopped(a, mid, c) && Traced(s, b, script) && GoesOn(b) && (|a| <= |b| ==> b[..|a|] == a)
      requires forall x :: x in b ==> Urgent(x)
      ensures |b| <= |a|
    {
      hide Traced, Final;
      if |a| < |b| {
        FurtherFound(s, a, b, script, mid);
      }
    }

    /** Whatever the callbacks do, only one run of event_process_active is allowed from a state. */
    lemma OneRun(s: Loop, a: seq<Start>, ra: seq<Callback>, ca: int, la: Loop, b: seq<Start>, rb: seq<Callback>, cb: int, lb: Loop,
                 script: seq<seq<Action>>)
      requires Processed(s, a, ra, ca, la, script) && Processed(s, b, rb, cb, lb, script)
      ensures a == b && ra == rb && ca == cb && la == lb
    {
      hide Final, FinalDeferred, Real;
      var n := if |a| <= |b| then |a| else |b|;
      SameCalls(s, a, b, script, n);
      var ma, mb := Final(s, Events(a), script), Final(s, Events(b), script);
      assert n == |a| ==> a[..n] == a;
      assert n == |b| ==> b[..n] == b;
      NoFurther(s, a, b, script, ma, ca);
      NoFurther(s, b, a, script, mb, cb);
      if ca >= 0 {
        OneDeferred(ma, ra, rb, Rest(script, |a|));
      }
    }

    lemma OneDeferred(s: Loop, a: seq<Callback>, b: seq<Callback>, script: seq<seq<Action>>)
      requires RanDeferred(s, a, script) && RanDeferred(s, b, script)
      ensures a == b
    {
      hide FinalDeferred;
      NoLongerDeferred(s, a, b, script);
      NoLongerDeferred(s, b, a, script);
      forall i | 0 <= i < |a| ensures a[i] == b[i] {
        DeferredAt(s, a, i, script);
        DeferredAt(s, b, i, script);
      }
    }

    lemma DeferredAt(s: Loop, ran: seq<Callback>, i: nat, script: seq<seq<Action>>)
      requires RanDeferred(s, ran, script) && i < |ran|
      ensures FirstDeferred(s, ran, i, script)
    {
    }

    lemma NoLongerDeferred(s: Loop, a: seq<Callback>, b: seq<Callback>, script: seq<seq<Action>>)
      requires RanDeferred(s, a, script) && RanDeferred(s, b, script)
      ensures |b| <= |a|
    {
      hide FinalDeferred;
      if |a| < |b| {
        DeferredAt(s, b, |a|, script);
      }
    }

    /** Neither event_haveevents nor N_ACTIVE_CALLBACKS. */
    method NothingLeft() returns (b: bool)
      requires Valid()
      ensures b <==> virtualCount == 0 && deferred == [] && forall m :: m in flags ==> m.0 in internal && m.1 != Active
    {
      b := !(virtualCount > 0 || eventCount > 0) && eventCountActive + deferCount == 0;
      TotalZero(queues);
      if b {
        assert Counted(flags, internal) == {};
        forall m | m in flags ensures m.0 in internal && m.1 != Active {
          assert m.0 !in internal ==> m in Counted(flags, internal);
        }
      } else if virtualCount == 0 && deferred == [] && eventCount > 0 {
        assert Counted(flags, internal) != {};
        ghost var m :| m in Counted(flags, internal);
        assert m in flags && m.0 !in internal;
      } else if eventCountActive > 0 {
        ghost var p :| 0 <= p < |queues| && queues[p] != [];
        assert queues[p][0] in queues[p];
        assert (queues[p][0], Active) in flags;
      }
    }

    /** What event_haveevents and N_ACTIVE_CALLBACKS tell. */
    ghost predicate Nothing(s: Loop)
      reads `virtualCount
    {
      virtualCount == 0 && s.deferred == [] && forall m :: m in s.flags ==> m.0 in internal && m.1 != Active
    }

    /** One round: what dispatch made active is processed, if anything is. */
    ghost predicate Plays(r: Round, script: seq<seq<Action>>)
    {
      if Busy(r.found) then Processed(r.found, r.started, r.ran, r.n, r.left, script)
      else r.started == [] && r.ran == [] && r.n == 0 && r.left == r.found
    }

    /** EVLOOP_ONCE ends the loop after the first round that has called something and left nothing active, EVLOOP_NONBLOCK after the first idle one. */
    ghost predicate RoundEnds(r: Round, once: bool, nonblock: bool)
    {
      if Busy(r.found) then once && !Busy(r.left) && r.n != 0 else nonblock
    }

    ghost function LastLeft(s: Loop, played: seq<Round>): Loop
    {
      if played == [] then s else played[|played| - 1].left
    }

    /** The callbacks of a row of rounds. */
    ghost function Used(played: seq<Round>): nat
    {
      if played == [] then 0 else Used(played[..|played| - 1]) + |played[|played| - 1].started| + |played[|played| - 1].ran|
    }

    ghost function Started(played: seq<Round>): seq<Start>
    {
      if played == [] then [] else Started(played[..|played| - 1]) + played[|played| - 1].started
    }

    /** A round starts where nothing has stopped the loop and there is something left to wait for. */
    ghost predicate NextRound(before: Loop, r: Round, actions: seq<Action>, script: seq<seq<Action>>)
      reads `virtualCount
    {
      && !before.gotterm && !before.broken && !Nothing(before)
      && r.found == AllDone(before.(goOn := false), actions) && Plays(r, script)
    }

    ghost predicate RoundAt(s: Loop, rounds: seq<seq<Action>>, script: seq<seq<Action>>, played: seq<Round>, k: nat)
      requires k < |played| && k < |rounds|
      reads `virtualCount
    {
      NextRound(LastLeft(s, played[..k]), played[k], rounds[k], Rest(script, Used(played[..k])))
    }

    /**
     * event_base_loop. A round is what the backend and the timers report in one dispatch; the script is
     * what the callbacks do, in the order in which they run.
     */
    method BaseLoop(once: bool, nonblock: bool, rounds: seq<seq<Action>>, script: seq<seq<Action>>)
        returns (outcome: Outcome, ghost played: seq<Round>)
      requires Valid() && Orderly() && runningPriority <= 0
      modifies `flags, `inserted, `timed, `queues, `eventCount, `eventCountActive, `byTimeout, `eventContinue,
               `eventBreak, `eventGotterm, `deferred, `queued, `deferCount, `starts, `runningPriority
      ensures Valid() && Orderly() && runningPriority <= 0
      ensures |played| <= |rounds| && starts == old(starts) + Started(played)
      ensures var s := old(State()).(gotterm := false, broken := false);
              && (forall k :: 0 <= k < |played| ==> RoundAt(s, rounds, script, played, k))
              && (forall k :: 0 <= k < |played| - 1 ==> !RoundEnds(played[k], once, nonblock))
              && State().(goOn := false) == LastLeft(s, played).(goOn := false)
              && var over := played != [] && RoundEnds(played[|played| - 1], once, nonblock);
                 match outcome
                 case Waiting => |played| == |rounds| && !over
                 case Terminated => over || (|played| < |rounds| && (eventGotterm || eventBreak))
                 case NoEvents => !over && |played| < |rounds| && !eventGotterm && !eventBreak && Nothing(State())
      ensures outcome == NoEvents ==> deferred == [] && forall m :: m in flags ==> m.0 in internal && m.1 != Active
      ensures outcome == Terminated ==> eventGotterm || eventBreak || once || nonblock
    {
      hide Lists, Deferred, Orderly, NextRound, RoundEnds, Started, Used;
      played := [];
      var rest := script;
      eventGotterm, eventBreak := false, false;
      ghost var s := State();
      NoRounds();
      for i := 0 to |rounds|
        invariant Valid() && Orderly() && runningPriority <= 0
        invariant |played| == i && starts == old(starts) + Started(played) && rest == Rest(script, Used(played))
        invariant forall k :: 0 <= k < |played| ==> RoundAt(s, rounds, script, played, k)
        invariant State().(goOn := false) == LastLeft(s, played).(goOn := false)
        invariant forall k :: 0 <= k < |played| ==> !RoundEnds(played[k], once, nonblock)
      {
        eventContinue := false;
        if eventGotterm || eventBreak {
          return Terminated, played;
        }
        var nothing := NothingLeft();
        if nothing {
          return NoEvents, played;
        }
        var over;
        ghost var r;
        over, rest, r := PlayRound(once, nonblock, rounds[i], rest, LastLeft(s, played));
        RoundsMore(s, rounds, script, played, r);
        played := played + [r];
        if over {
          return Terminated, played;
        }
      }
      return Waiting, played;
    }

    /** One turn of the loop, from dispatch on. */
    method PlayRound(once: bool, nonblock: bool, actions: seq<Action>, script: seq<seq<Action>>, ghost before: Loop)
        returns (over: bool, rest: seq<seq<Action>>, ghost r: Round)
      requires Valid() && Orderly() && runningPriority <= 0 && State() == before.(goOn := false)
      requires !eventGotterm && !eventBreak && !Nothing(State())
      modifies `flags, `inserted, `timed, `queues, `eventCount, `eventCountActive, `byTimeout, `eventContinue,
               `eventBreak, `eventGotterm, `deferred, `queued, `deferCount, `starts, `runningPriority
      ensures Valid() && Orderly() && runningPriority <= 0 && virtualCount == old(virtualCount)
      ensures NextRound(before, r, actions, script) && over == RoundEnds(r, once, nonblock)
      ensures starts == old(starts) + r.started && rest == Rest(script, |r.started| + |r.ran|) && r.left == State()
      ensures over ==> once || nonblock
    {
      hide Lists, Deferred, Orderly, Processed, AllDone, Busy, Rest, Real, Served, Joined, Urgent;
      DoAll(actions);
      assert Settled();
      ghost var found := State();
      ghost var olds := starts;
      rest := script;
      var busy, n, ran := eventCountActive + deferCount > 0, 0, [];
      BusyCounts();
      RestOne(script, 0, 0);
      over := false;
      if busy {
        n, ran, rest := ProcessActive(script);
        BusyCounts();
        if once && eventCountActive + deferCount == 0 && n != 0 {
          over := true;
        }
      } else if nonblock {
        over := true;
      }
      assert starts == olds + starts[|olds|..];
      r := Round(found, starts[|olds|..], ran, n, State());
    }

    /** A round that finds an active event calls the first of the most urgent ones; one that finds only deferred callbacks runs the first. */
    lemma RoundStarts(r: Round, script: seq<seq<Action>>)
      requires Plays(r, script)
      ensures !Empty(r.found.queues, |r.found.queues|) ==> r.started != [] && Urgent(Start(r.started[0].e, r.found))
      ensures Empty(r.found.queues, |r.found.queues|) && r.found.deferred != [] ==>
                r.started == [] && r.ran != [] && r.ran[0] == r.found.deferred[0]
    {
      hide AllDone, Taken;
      if Busy(r.found) {
        FirstCall(r.found, r.started, script, Final(r.found, Events(r.started), script), r.n);
        CallsLead(r.found, r.started, script, Final(r.found, Events(r.started), script));
        if r.started == [] && r.ran != [] {
          assert FirstDeferred(r.found, r.ran, 0, Rest(script, |r.started|));
        }
      }
    }

    lemma NoRounds()
      ensures Started([]) == [] && Used([]) == 0
    {
    }

    lemma BusyCounts()
      requires Valid()
      ensures eventCountActive + deferCount >= 0 && (eventCountActive + deferCount > 0 <==> Busy(State()))
    {
      TotalZero(queues);
    }

    lemma RoundsMore(s: Loop, rounds: seq<seq<Action>>, script: seq<seq<Action>>, played: seq<Round>, r: Round)
      requires |played| < |rounds| && forall k :: 0 <= k < |played| ==> RoundAt(s, rounds, script, played, k)
      requires NextRound(LastLeft(s, played), r, rounds[|played|], Rest(script, Used(played)))
      ensures forall k :: 0 <= k < |played| + 1 ==> RoundAt(s, rounds, script, played + [r], k)
      ensures Started(played + [r]) == Started(played) + r.started && Used(played + [r]) == Used(played) + |r.started| + |r.ran|
    {
      hide NextRound, LastLeft, Rest;
      var more := played + [r];
      assert more[..|played|] == played;
      forall k | 0 <= k < |more| ensures RoundAt(s, rounds, script, more, k) {
        assert k < |played| ==> more[..k] == played[..k] && RoundAt(s, rounds, script, played, k);
      }
    }
  }

  lemma {:induction false} RemoveAbsentFrom(l: seq<Callback>, cb: Callback)
    requires cb !in l
    ensures Remove(l, cb) == l
  {
    if l != [] {
      RemoveAbsentFrom(l[1..], cb);
    }
  }

  /** No queue gained an event. */
  ghost predicate Fewer(qs: seq<seq<Event>>, rs: seq<seq<Event>>)
  {
    |rs| == |qs| && forall i :: 0 <= i < |qs| ==> |rs[i]| <= |qs[i]|
  }
}
