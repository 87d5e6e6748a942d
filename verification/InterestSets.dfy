/** evmap, the changelist, epoll and /dev/poll: what the kernel is asked to watch. */
module InterestSets {
  import opened Wrappers

  /** EV_READ and EV_WRITE bits; the other flags of an event are not modelled. */
  datatype Interest = Interest(read: bool, write: bool)

  const NOTHING := Interest(false, false)

  datatype Event = Event(id: nat, wants: Interest)

  // ----- The kernel side of epoll -----

  datatype EpollOp = CtlAdd | CtlMod | CtlDel
  datatype Errno = Ok | ENOENT | EEXIST | EBADF | EPERM

  /** The epoll set: what is registered, which descriptors can be polled, and which are open on a file that cannot. */
  class EpollSet {
    var open: set<int>
    var files: set<int>
    var registered: map<int, Interest>

    constructor (open: set<int>, files: set<int>)
      ensures this.open == open && this.files == files && registered == map[]
    {
      this.open, this.files, registered := open, files, map[];
    }

    /** epoll_ctl(2). */
    method Ctl(op: EpollOp, fd: int, events: Interest) returns (errno: Errno)
      modifies `registered
      ensures errno == CtlErrno(op, fd in open, fd in files, fd in old(registered))
      ensures registered == if errno != Ok then old(registered) else
                            if op.CtlDel? then old(registered) - {fd} else old(registered)[fd := events]
    {
      if fd !in open {
        return if fd in files then EPERM else EBADF;
      }
      match op {
        case CtlAdd =>
          if fd in registered {
            return EEXIST;
          }
          registered := registered[fd := events];
        case CtlMod =>
          if fd !in registered {
            return ENOENT;
          }
          registered := registered[fd := events];
        case CtlDel =>
          if fd !in registered {
            return ENOENT;
          }
          registered := registered - {fd};
      }
      return Ok;
    }

    /** close(2) takes a descriptor out of the set. */
    method Close(fd: int)
      modifies `open, `registered
      ensures open == old(open) - {fd} && registered == old(registered) - {fd}
    {
      open, registered := open - {fd}, registered - {fd};
    }

    /** The number is given to another file. */
    method Open(fd: int)
      modifies `open
      ensures open == old(open) + {fd}
    {
      open := open + {fd};
    }
  }

  function CtlErrno(op: EpollOp, isOpen: bool, isFile: bool, known: bool): Errno
  {
    if !isOpen then (if isFile then EPERM else EBADF)
    else if op.CtlAdd? && known then EEXIST
    else if !op.CtlAdd? && !known then ENOENT
    else Ok
  }

  // ----- Changes -----

  datatype Mark = Unchanged | Add | Del

  datatype Change = Change(fd: int, oldEvents: Interest, readChange: Mark, writeChange: Mark)

  /** The kernel watches no more than the change starts from, and just that where the change asks for nothing. */
  predicate StartsFrom(ch: Change, kernel: Interest)
  {
    && (kernel.read ==> ch.oldEvents.read) && (kernel.write ==> ch.oldEvents.write)
    && (ch.readChange.Unchanged? && ch.oldEvents.read ==> kernel.read)
    && (ch.writeChange.Unchanged? && ch.oldEvents.write ==> kernel.write)
  }

  /** The interest a change asks for. */
  function Target(ch: Change): Interest
  {
    Interest(
      if ch.readChange.Add? then true else if ch.readChange.Del? then false else ch.oldEvents.read,
      if ch.writeChange.Add? then true else if ch.writeChange.Del? then false else ch.oldEvents.write)
  }

  /** event_changelist_add: an add replaces what was pending. */
  function AddMark(ch: Change, events: Interest): Change
  {
    ch.(readChange := if events.read then Add else ch.readChange, writeChange := if events.write then Add else ch.writeChange)
  }

  /** event_changelist_del: a delete takes back a pending add of what was not there at first. */
  function DelMark(ch: Change, events: Interest): Change
  {
    ch.(readChange := if !events.read then ch.readChange else if !ch.oldEvents.read && ch.readChange.Add? then Unchanged else Del,
        writeChange := if !events.write then ch.writeChange else if !ch.oldEvents.write && ch.writeChange.Add? then Unchanged else Del)
  }

  lemma MarksAsk(ch: Change, events: Interest)
    ensures Target(AddMark(ch, events)) == Union(Target(ch), events) && Target(DelMark(ch, events)) == Minus(Target(ch), events)
  {
  }

  /** What is added and deleted again before a dispatch, and was not there, is not asked of the kernel. */
  lemma AddedAndDeleted(fd: int, old_: Interest, events: Interest)
    requires Minus(old_, events) == old_
    ensures var ch := Change(fd, old_, Unchanged, Unchanged); DelMark(AddMark(ch, events), events) == ch
  {
  }

  function Lookup(kernel: map<int, Interest>, fd: int): Interest
  {
    if fd in kernel then kernel[fd] else NOTHING
  }

  /** epoll_apply_one_change: whatever the kernel held for the fd before, an open fd ends up with the target. */
  method EpollApplyOneChange(set_: EpollSet, ch: Change) returns (result: int)
    modifies set_`registered
    ensures ch.readChange.Unchanged? && ch.writeChange.Unchanged? ==>
              result == 0 && set_.registered == old(set_.registered)
    ensures !(ch.readChange.Unchanged? && ch.writeChange.Unchanged?) && ch.fd in set_.open ==>
              && result == 0 && Lookup(set_.registered, ch.fd) == Target(ch)
              && (ch.fd in set_.registered ==> Target(ch) != NOTHING)
    ensures !(ch.readChange.Unchanged? && ch.writeChange.Unchanged?) && ch.fd !in set_.open ==>
              set_.registered == old(set_.registered) && (result == 0 <==> Target(ch) == NOTHING)
    ensures set_.registered - {ch.fd} == old(set_.registered) - {ch.fd} && (result == 0 || result == -1)
    ensures old(set_.registered.Keys) <= set_.open ==> set_.registered.Keys <= set_.open
  {
    var op, events := CtlAdd, NOTHING;
    if ch.readChange.Add? || ch.writeChange.Add? {
      if ch.readChange.Add? {
        events := events.(read := true);
      } else if ch.readChange.Del? {
      } else if ch.oldEvents.read {
        events := events.(read := true);
      }
      if ch.writeChange.Add? {
        events := events.(write := true);
      } else if ch.writeChange.Del? {
      } else if ch.oldEvents.write {
        events := events.(write := true);
      }
      if ch.oldEvents != NOTHING {
        op := CtlMod;
      }
    } else if ch.readChange.Del? || ch.writeChange.Del? {
      op := CtlDel;
      if ch.readChange.Del? {
        if ch.writeChange.Del? {
          events := Interest(true, true);
        } else if ch.oldEvents.write {
          events := Interest(false, true);
          op := CtlMod;
        } else {
          events := Interest(true, false);
        }
      } else if ch.writeChange.Del? {
        if ch.oldEvents.read {
          events := Interest(true, false);
          op := CtlMod;
        } else {
          events := Interest(false, true);
        }
      }
    }
    if events == NOTHING {
      return 0;
    }
    var errno := set_.Ctl(op, ch.fd, events);
    if errno != Ok {
      if op.CtlMod? && errno == ENOENT {
        var retry := set_.Ctl(CtlAdd, ch.fd, events);
        if retry != Ok {
          return -1;
        }
      } else if op.CtlAdd? && errno == EEXIST {
        var retry := set_.Ctl(CtlMod, ch.fd, events);
        if retry != Ok {
          return -1;
        }
      } else if op.CtlDel? && (errno == ENOENT || errno == EBADF || errno == EPERM) {
      } else {
        return -1;
      }
    }
    return 0;
  }

  // ----- The kernel side of /dev/poll -----

  /** A struct pollfd written to /dev/poll: POLLREMOVE, or events to watch as well. */
  datatype PollFd = PollFd(fd: int, remove: bool, events: Interest)

  function Union(a: Interest, b: Interest): Interest
  {
    Interest(a.read || b.read, a.write || b.write)
  }

  function Minus(a: Interest, b: Interest): Interest
  {
    Interest(a.read && !b.read, a.write && !b.write)
  }

  /** The driver ORs events into what it watches, and POLLREMOVE drops all of them. */
  function PollWrite(watched: map<int, Interest>, p: PollFd): map<int, Interest>
  {
    if p.remove then watched - {p.fd} else watched[p.fd := Union(Lookup(watched, p.fd), p.events)]
  }

  function Replay(watched: map<int, Interest>, queue: seq<PollFd>): map<int, Interest>
  {
    if queue == [] then watched else PollWrite(Replay(watched, queue[..|queue| - 1]), queue[|queue| - 1])
  }

  // ----- evmap -----

  /** struct evmap_io with its changelist fdinfo. */
  datatype EvmapIo = EvmapIo(events: seq<Event>, nread: nat, nwrite: nat, idxplus1: nat)

  datatype Backend = Epoll | EpollChangelist | Devpoll

  function CountRead(events: seq<Event>): nat
  {
    if events == [] then 0 else (if events[0].wants.read then 1 else 0) + CountRead(events[1..])
  }

  function CountWrite(events: seq<Event>): nat
  {
    if events == [] then 0 else (if events[0].wants.write then 1 else 0) + CountWrite(events[1..])
  }

  /** What the events of one fd want together. */
  ghost function Wanted(events: seq<Event>): Interest
  {
    Interest(exists e :: e in events && e.wants.read, exists e :: e in events && e.wants.write)
  }

  /** TAILQ_REMOVE: the list without the first occurrence of ev. */
  function Without(events: seq<Event>, ev: Event): seq<Event>
  {
    if events == [] then [] else if events[0] == ev then events[1..] else [events[0]] + Without(events[1..], ev)
  }

  lemma {:induction false} CountSnoc(events: seq<Event>, ev: Event)
    ensures CountRead(events + [ev]) == CountRead(events) + (if ev.wants.read then 1 else 0)
    ensures CountWrite(events + [ev]) == CountWrite(events) + (if ev.wants.write then 1 else 0)
  {
    if events == [] {
      assert events + [ev] == [ev];
    } else {
      assert (events + [ev])[1..] == events[1..] + [ev];
      CountSnoc(events[1..], ev);
    }
  }

  lemma {:induction false} CountWithout(events: seq<Event>, ev: Event)
    requires ev in events
    ensures CountRead(Without(events, ev)) == CountRead(events) - (if ev.wants.read then 1 else 0)
    ensures CountWrite(Without(events, ev)) == CountWrite(events) - (if ev.wants.write then 1 else 0)
  {
    if events[0] != ev {
      CountWithout(events[1..], ev);
    }
  }

  /** The counts are positive exactly when some event wants the operation. */
  lemma {:induction false} CountsDecide(events: seq<Event>)
    ensures Wanted(events) == Interest(CountRead(events) > 0, CountWrite(events) > 0)
  {
    if events != [] {
      CountsDecide(events[1..]);
      assert forall e :: e in events <==> e == events[0] || e in events[1..];
    }
  }

  lemma ReplaySnoc(watched: map<int, Interest>, queue: seq<PollFd>, p: PollFd)
    ensures Replay(watched, queue + [p]) == PollWrite(Replay(watched, queue), p)
  {
    assert (queue + [p])[..|queue|] == queue;
  }

  lemma OtherFds(before: map<int, Interest>, after: map<int, Interest>, fd: int)
    requires after - {fd} == before - {fd}
    ensures forall f :: f != fd ==> Lookup(after, f) == Lookup(before, f)
  {
    forall f | f != fd ensures Lookup(after, f) == Lookup(before, f) {
      assert f in after <==> f in after - {fd};
      assert f in before <==> f in before - {fd};
    }
  }

  /** -1: too many events, or the backend refuses new interest; 1: the backend was told something new; 0 otherwise. */
  ghost function AddResult(fd: int, wants: Interest, registered: seq<Event>, refuses: bool): int
  {
    var news := Minus(wants, Wanted(registered));
    if fd < 0 then 0
    else if CountRead(registered) + (if wants.read then 1 else 0) > 0xffff then -1
    else if CountWrite(registered) + (if wants.write then 1 else 0) > 0xffff then -1
    else if news == NOTHING then 0
    else if refuses then -1
    else 1
  }

  /** -1: the backend refuses, which it does only to keep watching the other direction; 1: it was told to drop something; 0 otherwise. */
  ghost function DelResult(fd: int, ev: Event, registered: seq<Event>, refuses: bool): int
  {
    var rest := Wanted(Without(registered, ev));
    if fd < 0 || rest == Wanted(registered) then 0 else if refuses && rest != NOTHING then -1 else 1
  }

  class EventBase {
    const backend: Backend
    const epoll: EpollSet
    const nevents: nat

    /** base->io.entries. */
    var entries: seq<Option<EvmapIo>>
    /** base->changelist. */
    var changes: seq<Change>
    var changesSize: nat
    /** /dev/poll and the queue in front of it. */
    var watched: map<int, Interest>
    var queue: seq<PollFd>

    constructor (backend: Backend, epoll: EpollSet, nevents: nat)
      requires epoll.registered == map[] && nevents > 0
      ensures Valid() && Quiet() && fresh(this) && this.backend == backend && this.epoll == epoll && this.nevents == nevents
      ensures forall fd :: Registered(fd) == []
    {
      this.backend, this.epoll, this.nevents := backend, epoll, nevents;
      entries, changes, changesSize, watched, queue := [], [], 0, map[], [];
    }

    ghost function Registered(fd: int): seq<Event>
      reads `entries
    {
      if 0 <= fd < |entries| && entries[fd].Some? then entries[fd].value.events else []
    }

    /** The change pending for fd, as its fdinfo records it. */
    ghost function PendingIndex(fd: int): nat
      reads `entries
    {
      if 0 <= fd < |entries| && entries[fd].Some? then entries[fd].value.idxplus1 else 0
    }

    /** What the kernel watches once everything pending has been applied. */
    ghost function View(fd: int): Interest
      reads `entries, `changes, `watched, `queue, epoll`registered
    {
      if backend.Devpoll? then Lookup(Replay(watched, queue), fd)
      else if 0 < PendingIndex(fd) <= |changes| then Target(changes[PendingIndex(fd) - 1])
      else Lookup(epoll.registered, fd)
    }

    /** What the kernel watches now. */
    ghost function Kernel(fd: int): Interest
      reads `watched, epoll`registered
    {
      if backend.Devpoll? then Lookup(watched, fd) else Lookup(epoll.registered, fd)
    }

    /** A descriptor on which epoll_ctl can succeed. */
    ghost predicate Usable(fd: int)
      reads epoll`open
    {
      backend.Devpoll? || fd in epoll.open
    }

    /** event_changelist_check: the fdinfo indices and the change array are inverse to each other. */
    ghost predicate ChangelistOk()
      reads `entries, `changes, `changesSize
    {
      && |changes| <= changesSize
      && (forall fd :: PendingIndex(fd) <= |changes|)
      && (forall fd, i :: 0 <= i < |changes| ==> (PendingIndex(fd) == i + 1 <==> changes[i].fd == fd))
      && (!backend.EpollChangelist? ==> changes == [])
    }

    ghost predicate CountsOk()
      reads `entries
    {
      forall fd :: 0 <= fd < |entries| && entries[fd].Some? ==>
        entries[fd].value.nread == CountRead(entries[fd].value.events)
        && entries[fd].value.nwrite == CountWrite(entries[fd].value.events)
    }

    ghost predicate QueueOk()
      reads `queue
    {
      |queue| <= nevents && nevents > 0 && (!backend.Devpoll? ==> queue == [])
    }

    /** Counts are right, pending changes start from what the kernel holds, the queue fits, only open descriptors are watched. */
    ghost predicate Coherent()
      reads `entries, `changes, `changesSize, `watched, `queue, epoll`registered, epoll`open
    {
      && ChangelistOk() && CountsOk() && QueueOk()
      && (forall i :: 0 <= i < |changes| && changes[i].fd in epoll.open ==>
            StartsFrom(changes[i], Lookup(epoll.registered, changes[i].fd)))
      && epoll.registered.Keys <= epoll.open
    }

    ghost predicate Valid()
      reads `entries, `changes, `changesSize, `watched, `queue, epoll`registered, epoll`open
    {
      Coherent() && forall fd :: Usable(fd) ==> View(fd) == Wanted(Registered(fd))
    }

    /** Nothing is registered or asked for on a closed descriptor. */
    ghost predicate Quiet()
      reads `entries, `changes, `watched, `queue, epoll`registered, epoll`open
    {
      forall fd :: fd !in epoll.open ==> Registered(fd) == [] && View(fd) == NOTHING
    }

    /** evmap_make_space. */
    method MakeSpace(slot: nat)
      requires Coherent()
      modifies `entries
      ensures Coherent() && slot < |entries| && old(entries) <= entries
      ensures if slot < |old(entries)| then entries == old(entries) else |entries| == 32 || |entries| <= 2 * slot
      ensures forall fd :: Registered(fd) == old(Registered(fd)) && View(fd) == old(View(fd))
    {
      if |entries| <= slot {
        var nentries := if |entries| > 0 then |entries| else 32;
        while nentries <= slot
          invariant nentries > 0 && nentries >= |entries| && (nentries <= slot || nentries == 32 || nentries <= 2 * slot)
          decreases slot - nentries
        {
          nentries := nentries * 2;
        }
        entries := entries + seq(nentries - |entries|, _ => None);
        assert forall fd :: PendingIndex(fd) == old(PendingIndex(fd));
      }
    }

    /** A change for an fd that has none, starting from oldEvents. */
    method Construct(fd: int, oldEvents: Interest) returns (idx: nat)
      requires Coherent() && backend.EpollChangelist? && 0 <= fd < |entries| && entries[fd].Some?
      requires PendingIndex(fd) == 0 && (fd in epoll.open ==> Lookup(epoll.registered, fd) == oldEvents)
      modifies `entries, `changes, `changesSize
      ensures Coherent() && idx == |old(changes)|
      ensures changes == old(changes) + [Change(fd, oldEvents, Unchanged, Unchanged)]
      ensures changesSize == if |old(changes)| < old(changesSize) then old(changesSize)
                             else if old(changesSize) < 64 then 64 else old(changesSize) * 2
      ensures |entries| == |old(entries)| && entries[fd].Some?
      ensures forall f :: Registered(f) == old(Registered(f))
      ensures forall f :: PendingIndex(f) == if f == fd then idx + 1 else old(PendingIndex(f))
    {
      if |changes| == changesSize {
        // event_changelist_grow
        changesSize := if changesSize < 64 then 64 else changesSize * 2;
      }
      idx := |changes|;
      changes := changes + [Change(fd, oldEvents, Unchanged, Unchanged)];
      entries := entries[fd := Some(entries[fd].value.(idxplus1 := idx + 1))];
      assert forall f :: PendingIndex(f) == if f == fd then idx + 1 else old(PendingIndex(f));
    }

    /** event_changelist_get_or_construct. */
    method GetOrConstruct(fd: int, oldEvents: Interest) returns (idx: nat)
      requires Coherent() && backend.EpollChangelist?
      requires 0 <= fd < |entries| && entries[fd].Some? && (fd in epoll.open ==> View(fd) == oldEvents)
      modifies `entries, `changes, `changesSize
      ensures Coherent() && idx < |changes| && PendingIndex(fd) == idx + 1 && changes[idx].fd == fd
      ensures if old(PendingIndex(fd)) > 0 then changes == old(changes) && idx == old(PendingIndex(fd)) - 1
              else changes == old(changes) + [Change(fd, oldEvents, Unchanged, Unchanged)] && idx == |old(changes)|
      ensures |entries| == |old(entries)| && entries[fd].Some?
      ensures forall f :: Registered(f) == old(Registered(f))
      ensures forall f :: Usable(f) || f != fd ==> View(f) == old(View(f))
    {
      if entries[fd].value.idxplus1 == 0 {
        idx := Construct(fd, oldEvents);
      } else {
        assert PendingIndex(fd) > 0;
        idx := entries[fd].value.idxplus1 - 1;
      }
    }

    /** event_changelist_add: an add replaces whatever was pending. */
    method ChangelistAdd(fd: int, oldEvents: Interest, events: Interest)
      requires Coherent() && backend.EpollChangelist?
      requires 0 <= fd < |entries| && entries[fd].Some? && (fd in epoll.open ==> View(fd) == oldEvents)
      modifies `entries, `changes, `changesSize
      ensures Coherent() && |entries| == |old(entries)| && entries[fd].Some?
      ensures forall f :: Registered(f) == old(Registered(f))
      ensures forall f :: Usable(f) || f != fd ==> View(f) == if f == fd then Union(oldEvents, events) else old(View(f))
      ensures if 0 < old(PendingIndex(fd)) <= |old(changes)|
              then var i := old(PendingIndex(fd)) - 1; changes == old(changes)[i := AddMark(old(changes)[i], events)]
              else changes == old(changes) + [AddMark(Change(fd, oldEvents, Unchanged, Unchanged), events)]
    {
      var idx := GetOrConstruct(fd, oldEvents);
      var change := changes[idx];
      if events.read {
        change := change.(readChange := Add);
      }
      if events.write {
        change := change.(writeChange := Add);
      }
      changes := changes[idx := change];
    }

    /** event_changelist_del: a delete undoes a pending add that started from nothing. */
    method ChangelistDel(fd: int, oldEvents: Interest, events: Interest)
      requires Coherent() && backend.EpollChangelist?
      requires 0 <= fd < |entries| && entries[fd].Some? && (fd in epoll.open ==> View(fd) == oldEvents)
      modifies `entries, `changes, `changesSize
      ensures Coherent() && |entries| == |old(entries)| && entries[fd].Some?
      ensures forall f :: Registered(f) == old(Registered(f))
      ensures forall f :: Usable(f) || f != fd ==> View(f) == if f == fd then Minus(oldEvents, events) else old(View(f))
      ensures if 0 < old(PendingIndex(fd)) <= |old(changes)|
              then var i := old(PendingIndex(fd)) - 1; changes == old(changes)[i := DelMark(old(changes)[i], events)]
              else changes == old(changes) + [DelMark(Change(fd, oldEvents, Unchanged, Unchanged), events)]
    {
      var idx := GetOrConstruct(fd, oldEvents);
      var change := changes[idx];
      if events.read {
        change := change.(readChange :=
          if !change.oldEvents.read && change.readChange.Add? then Unchanged else Del);
      }
      if events.write {
        change := change.(writeChange :=
          if !change.oldEvents.write && change.writeChange.Add? then Unchanged else Del);
      }
      changes := changes[idx := change];
    }

    /** devpoll_commit. */
    method DevpollCommit()
      requires Coherent() && backend.Devpoll?
      modifies `watched, `queue
      ensures Coherent() && queue == [] && watched == Replay(old(watched), old(queue))
      ensures forall fd :: Kernel(fd) == View(fd) == old(View(fd))
    {
      // pwrite of the whole queue.
      watched := Replay(watched, queue);
      queue := [];
    }

    /** devpoll_queue: flush first when the buffer is full. */
    method DevpollQueue(p: PollFd)
      requires Coherent() && backend.Devpoll?
      modifies `watched, `queue
      ensures Coherent() && Replay(watched, queue) == PollWrite(Replay(old(watched), old(queue)), p)
      ensures if |old(queue)| < nevents then watched == old(watched) && queue == old(queue) + [p]
              else watched == Replay(old(watched), old(queue)) && queue == [p]
    {
      if |queue| >= nevents {
        DevpollCommit();
      }
      ReplaySnoc(watched, queue, p);
      queue := queue + [p];
    }

    /** devpoll_add. */
    method DevpollAdd(fd: int, oldEvents: Interest, events: Interest)
      requires Coherent() && backend.Devpoll? && View(fd) == oldEvents
      modifies `watched, `queue
      ensures Coherent()
      ensures forall f :: View(f) == if f == fd then Union(oldEvents, events) else old(View(f))
    {
      DevpollQueue(PollFd(fd, false, events));
    }

    /** devpoll_del: drop everything, then ask again for what is still wanted. */
    method DevpollDel(fd: int, oldEvents: Interest, events: Interest)
      requires Coherent() && backend.Devpoll? && View(fd) == oldEvents
      requires events != NOTHING && (events.read ==> oldEvents.read) && (events.write ==> oldEvents.write)
      modifies `watched, `queue
      ensures Coherent()
      ensures forall f :: View(f) == if f == fd then Minus(oldEvents, events) else old(View(f))
    {
      DevpollQueue(PollFd(fd, true, NOTHING));
      if !(events.read && events.write) {
        if events.read && oldEvents.write {
          DevpollQueue(PollFd(fd, false, Interest(false, true)));
        } else if events.write && oldEvents.read {
          DevpollQueue(PollFd(fd, false, Interest(true, false)));
        }
      }
    }

    /** evsel->add. */
    method BackendAdd(fd: int, oldEvents: Interest, events: Interest) returns (result: int)
      requires Coherent() && 0 <= fd < |entries| && entries[fd].Some?
      requires (Usable(fd) ==> View(fd) == oldEvents) && events != NOTHING
      modifies `entries, `changes, `changesSize, `watched, `queue, epoll`registered
      ensures Coherent() && |entries| == |old(entries)| && entries[fd].Some?
      ensures forall f :: Registered(f) == old(Registered(f))
      ensures result == if backend.Epoll? && fd !in epoll.open then -1 else 0
      ensures forall f :: Usable(f) || f != fd ==> View(f) == if f == fd then Union(oldEvents, events) else old(View(f))
      ensures !backend.Epoll? ==> epoll.registered == old(epoll.registered)
    {
      match backend {
        case Epoll =>
          var ch := Change(fd, oldEvents, if events.read then Add else Unchanged, if events.write then Add else Unchanged);
          result := EpollApplyOneChange(epoll, ch);
          OtherFds(old(epoll.registered), epoll.registered, fd);
        case EpollChangelist =>
          ChangelistAdd(fd, oldEvents, events);
          result := 0;
        case Devpoll =>
          DevpollAdd(fd, oldEvents, events);
          result := 0;
      }
    }

    /** evsel->del. */
    method BackendDel(fd: int, oldEvents: Interest, events: Interest) returns (result: int)
      requires Coherent() && 0 <= fd < |entries| && entries[fd].Some? && (Usable(fd) ==> View(fd) == oldEvents)
      requires events != NOTHING && (events.read ==> oldEvents.read) && (events.write ==> oldEvents.write)
      modifies `entries, `changes, `changesSize, `watched, `queue, epoll`registered
      ensures Coherent() && |entries| == |old(entries)| && entries[fd].Some?
      ensures forall f :: Registered(f) == old(Registered(f))
      ensures result == if backend.Epoll? && fd !in epoll.open && Minus(oldEvents, events) != NOTHING then -1 else 0
      ensures forall f :: Usable(f) || f != fd ==> View(f) == if f == fd then Minus(oldEvents, events) else old(View(f))
      ensures !backend.Epoll? ==> epoll.registered == old(epoll.registered)
    {
      match backend {
        case Epoll =>
          var ch := Change(fd, oldEvents, if events.read then Del else Unchanged, if events.write then Del else Unchanged);
          result := EpollApplyOneChange(epoll, ch);
          OtherFds(old(epoll.registered), epoll.registered, fd);
        case EpollChangelist =>
          ChangelistDel(fd, oldEvents, events);
          result := 0;
        case Devpoll =>
          DevpollDel(fd, oldEvents, events);
          result := 0;
      }
    }

    /** evmap_io_add. */
    method IoAdd(fd: int, ev: Event) returns (result: int)
      requires Valid()
      modifies `entries, `changes, `changesSize, `watched, `queue, epoll`registered
      ensures Valid()
      ensures result == AddResult(fd, ev.wants, old(Registered(fd)), backend.Epoll? && fd !in epoll.open)
      ensures forall f :: Registered(f) ==
                if result != -1 && f == fd && fd >= 0 then old(Registered(f)) + [ev] else old(Registered(f))
      ensures forall f :: f != fd ==> View(f) == old(View(f))
      ensures !backend.Epoll? ==> epoll.registered == old(epoll.registered)
    {
      if fd < 0 {
        return 0;
      }
      if fd >= |entries| {
        MakeSpace(fd);
      }
      if entries[fd].None? {
        MakeSlot(fd);
      }
      result := Register(fd, ev);
    }

    /** The constructor half of GET_IO_SLOT_AND_CTOR. */
    method MakeSlot(fd: int)
      requires Coherent() && 0 <= fd < |entries| && entries[fd].None?
      modifies `entries
      ensures Coherent() && |entries| == |old(entries)| && entries[fd].Some?
      ensures forall f :: Registered(f) == old(Registered(f)) && View(f) == old(View(f))
    {
      entries := entries[fd := Some(EvmapIo([], 0, 0, 0))];
      assert forall f :: PendingIndex(f) == old(PendingIndex(f));
    }

    /** The counts with ev, and the interest that is new with it. */
    method CountUp(fd: int, ev: Event) returns (nread: nat, nwrite: nat, oldEvents: Interest, res: Interest)
      requires Coherent() && 0 <= fd < |entries| && entries[fd].Some?
      ensures nread == CountRead(Registered(fd) + [ev]) && nwrite == CountWrite(Registered(fd) + [ev])
      ensures oldEvents == Wanted(Registered(fd)) && res == Minus(ev.wants, oldEvents)
      ensures Wanted(Registered(fd) + [ev]) == Union(oldEvents, res)
    {
      nread, nwrite := entries[fd].value.nread, entries[fd].value.nwrite;
      CountsDecide(Registered(fd));
      CountsDecide(Registered(fd) + [ev]);
      CountSnoc(Registered(fd), ev);
      oldEvents, res := Interest(nread > 0, nwrite > 0), NOTHING;
      if ev.wants.read {
        nread := nread + 1;
        if nread == 1 {
          res := res.(read := true);
        }
      }
      if ev.wants.write {
        nwrite := nwrite + 1;
        if nwrite == 1 {
          res := res.(write := true);
        }
      }
    }

    /** evmap_io_add once the slot exists. */
    method Register(fd: int, ev: Event) returns (result: int)
      requires Valid() && 0 <= fd < |entries| && entries[fd].Some?
      modifies `entries, `changes, `changesSize, `watched, `queue, epoll`registered
      ensures Valid()
      ensures result == AddResult(fd, ev.wants, old(Registered(fd)), backend.Epoll? && fd !in epoll.open)
      ensures forall f :: Registered(f) == if result != -1 && f == fd then old(Registered(f)) + [ev] else old(Registered(f))
      ensures forall f :: f != fd ==> View(f) == old(View(f))
      ensures !backend.Epoll? ==> epoll.registered == old(epoll.registered)
    {
      hide Coherent, View;
      var nread, nwrite, oldEvents, res := CountUp(fd, ev);
      CountSnoc(Registered(fd), ev);
      if nread > 0xffff || nwrite > 0xffff {
        return -1;
      }
      result := 0;
      if res != NOTHING {
        var r := BackendAdd(fd, oldEvents, res);
        if r == -1 {
          return -1;
        }
        result := 1;
      }
      SetCounts(fd, entries[fd].value.events + [ev], nread, nwrite);
    }

    /** The writes to ctx at the end of evmap_io_add and evmap_io_del. */
    method SetCounts(fd: int, events: seq<Event>, nread: nat, nwrite: nat)
      requires Coherent() && 0 <= fd < |entries| && entries[fd].Some?
      requires nread == CountRead(events) && nwrite == CountWrite(events)
      modifies `entries
      ensures Coherent() && forall f :: Registered(f) == if f == fd then events else old(Registered(f))
      ensures forall f :: View(f) == old(View(f))
    {
      entries := entries[fd := Some(entries[fd].value.(events := events, nread := nread, nwrite := nwrite))];
      assert forall f :: PendingIndex(f) == old(PendingIndex(f));
    }

    /** evmap_io_del of a registered event. */
    method IoDel(fd: int, ev: Event) returns (result: int)
      requires Valid() && (fd >= 0 ==> ev in Registered(fd))
      modifies `entries, `changes, `changesSize, `watched, `queue, epoll`registered
      ensures Valid()
      ensures result == DelResult(fd, ev, old(Registered(fd)), backend.Epoll? && fd !in epoll.open)
      ensures forall f :: Registered(f) ==
                if result != -1 && f == fd && fd >= 0 then Without(old(Registered(f)), ev) else old(Registered(f))
      ensures forall f :: f != fd ==> View(f) == old(View(f))
      ensures !backend.Epoll? ==> epoll.registered == old(epoll.registered)
    {
      if fd < 0 {
        return 0;
      }
      var nread, nwrite := entries[fd].value.nread, entries[fd].value.nwrite;
      CountsDecide(Registered(fd));
      CountsDecide(Without(Registered(fd), ev));
      CountWithout(Registered(fd), ev);
      var oldEvents := Interest(nread > 0, nwrite > 0);
      var res := NOTHING;
      if ev.wants.read {
        nread := nread - 1;
        if nread == 0 {
          res := res.(read := true);
        }
      }
      if ev.wants.write {
        nwrite := nwrite - 1;
        if nwrite == 0 {
          res := res.(write := true);
        }
      }
      result := 0;
      if res != NOTHING {
        var r := BackendDel(fd, oldEvents, res);
        if r == -1 {
          return -1;
        }
        result := 1;
      }
      SetCounts(fd, Without(entries[fd].value.events, ev), nread, nwrite);
    }

    /** A change that epoll_ctl fails, and that asks for something still. */
    ghost predicate Refused(ch: Change)
      reads epoll`open
    {
      ch.fd !in epoll.open && !(ch.readChange.Unchanged? && ch.writeChange.Unchanged?) && Target(ch) != NOTHING
    }

    /** epoll_apply_changes: every change in turn, a failing one not stopping the rest. */
    method EpollApplyChanges() returns (result: int)
      requires Coherent() && backend.EpollChangelist?
      modifies epoll`registered
      ensures forall i :: 0 <= i < |changes| && changes[i].fd in epoll.open ==>
                Lookup(epoll.registered, changes[i].fd) == Target(changes[i])
      ensures forall fd :: PendingIndex(fd) == 0 ==> Lookup(epoll.registered, fd) == Lookup(old(epoll.registered), fd)
      ensures result == if exists i :: 0 <= i < |changes| && Refused(changes[i]) then -1 else 0
      ensures epoll.registered.Keys <= epoll.open
    {
      result := 0;
      for i := 0 to |changes|
        invariant forall k :: 0 <= k < i && changes[k].fd in epoll.open ==>
                    Lookup(epoll.registered, changes[k].fd) == Target(changes[k])
        invariant forall k :: i <= k < |changes| && changes[k].fd in epoll.open ==>
                    StartsFrom(changes[k], Lookup(epoll.registered, changes[k].fd))
        invariant epoll.registered.Keys <= epoll.open
        invariant forall fd :: PendingIndex(fd) == 0 ==>
                    Lookup(epoll.registered, fd) == Lookup(old(epoll.registered), fd)
        invariant result == if exists k :: 0 <= k < i && Refused(changes[k]) then -1 else 0
      {
        ghost var before := epoll.registered;
        assert forall k :: 0 <= k < |changes| && k != i ==> changes[k].fd != changes[i].fd by {
          assert PendingIndex(changes[i].fd) == i + 1;
        }
        var r := EpollApplyOneChange(epoll, changes[i]);
        OtherFds(before, epoll.registered, changes[i].fd);
        if r < 0 {
          result := -1;
        }
      }
    }

    /** event_changelist_remove_all. */
    method ChangelistRemoveAll()
      requires ChangelistOk() && CountsOk() && QueueOk() && backend.EpollChangelist? && epoll.registered.Keys <= epoll.open
      modifies `entries, `changes
      ensures Coherent() && changes == []
      ensures forall f :: Registered(f) == old(Registered(f)) && PendingIndex(f) == 0
    {
      for i := 0 to |changes|
        modifies `entries
        invariant |entries| == |old(entries)|
        invariant forall f :: Registered(f) == old(Registered(f))
        invariant forall f :: PendingIndex(f) == if old(PendingIndex(f)) <= i then 0 else old(PendingIndex(f))
        invariant CountsOk()
      {
        var fd := changes[i].fd;
        assert old(PendingIndex(fd)) == i + 1;
        assert PendingIndex(fd) == i + 1;
        entries := entries[fd := Some(entries[fd].value.(idxplus1 := 0))];
        assert forall f :: Registered(f) == old(Registered(f));
        assert forall f :: old(PendingIndex(f)) == i + 1 <==> f == fd;
      }
      changes := [];
    }

    /** What dispatching does before it waits: nothing stays pending and the kernel agrees with the registered events. */
    method Dispatch()
      requires Valid()
      modifies `entries, `changes, `watched, `queue, epoll`registered
      ensures Valid() && changes == [] && queue == []
      ensures forall f :: Registered(f) == old(Registered(f))
      ensures forall f :: Usable(f) ==> Kernel(f) == Wanted(Registered(f))
      ensures old(Quiet()) ==> Quiet()
    {
      match backend {
        case Epoll =>
        case EpollChangelist =>
          DispatchChangelist();
        case Devpoll =>
          if queue != [] {
            DevpollCommit();
          }
      }
    }

    method DispatchChangelist()
      requires Valid() && backend.EpollChangelist?
      modifies `entries, `changes, epoll`registered
      ensures Valid() && changes == []
      ensures forall f :: Registered(f) == old(Registered(f))
      ensures old(Quiet()) ==> Quiet()
    {
      var _ := EpollApplyChanges();
      assert forall f :: Usable(f) ==> Lookup(epoll.registered, f) == Wanted(Registered(f));
      ChangelistRemoveAll();
    }
  }

  // ----- Whole runs -----

  /** Events are added and deleted, the loop dispatches, descriptors are closed and their numbers used again. */
  datatype Op = OpAdd(fd: nat, ev: Event) | OpDel(fd: nat, ev: Event) | OpDispatch | OpClose(fd: nat) | OpOpen(fd: nat)

  /** The events registered on each fd and the open descriptors, with no backend in sight. */
  datatype World = World(events: map<int, seq<Event>>, open: set<int>) {
    ghost function Of(fd: int): seq<Event>
    {
      if fd in events then events[fd] else []
    }
  }

  ghost function Step(w: World, op: Op): World
  {
    match op
    case OpAdd(fd, ev) => w.(events := w.events[fd := w.Of(fd) + [ev]])
    case OpDel(fd, ev) => w.(events := w.events[fd := Without(w.Of(fd), ev)])
    case OpDispatch => w
    case OpClose(fd) => w.(open := w.open - {fd})
    case OpOpen(fd) => w.(open := w.open + {fd})
  }

  ghost function After(w: World, ops: seq<Op>): World
    decreases |ops|
  {
    if ops == [] then w else After(Step(w, ops[0]), ops[1..])
  }

  /**
   * Only registered events are deleted, no fd collects more than 65535 readers or writers, and a descriptor is open
   * while events are registered on it.
   */
  ghost predicate Allowed(w: World, op: Op)
  {
    match op
    case OpAdd(fd, ev) =>
      fd in w.open && CountRead(w.Of(fd) + [ev]) <= 0xffff && CountWrite(w.Of(fd) + [ev]) <= 0xffff
    case OpDel(fd, ev) => fd in w.open && ev in w.Of(fd)
    case OpDispatch => true
    case OpClose(fd) => w.Of(fd) == []
    case OpOpen(_) => true
  }

  ghost predicate Legal(w: World, ops: seq<Op>)
    decreases |ops|
  {
    ops != [] ==> Allowed(w, ops[0]) && Legal(Step(w, ops[0]), ops[1..])
  }

  /** The base has the events of the world, and nothing on closed descriptors. */
  ghost predicate Follows(base: EventBase, w: World)
    reads base, base.epoll
  {
    base.Valid() && base.Quiet() && base.epoll.open == w.open && forall fd :: base.Registered(fd) == w.Of(fd)
  }

  /** A pending change that asks for nothing starts from whatever may be left of it. */
  lemma NothingAsked(base: EventBase, fd: int)
    requires base.Coherent() && base.View(fd) == NOTHING
    ensures forall i :: 0 <= i < |base.changes| && base.changes[i].fd == fd ==> StartsFrom(base.changes[i], NOTHING)
  {
    hide Replay;
    forall i | 0 <= i < |base.changes| && base.changes[i].fd == fd ensures StartsFrom(base.changes[i], NOTHING) {
      assert base.PendingIndex(fd) == i + 1;
    }
  }

  /** A descriptor without events is closed. */
  method Close(base: EventBase, fd: int, ghost w: World)
    requires Follows(base, w) && w.Of(fd) == []
    modifies base.epoll
    ensures Follows(base, w.(open := w.open - {fd}))
  {
    hide Replay, Wanted, EventBase.ChangelistOk, EventBase.CountsOk, EventBase.QueueOk;
    NothingWanted();
    assert base.View(fd) == NOTHING by {
      assert base.Registered(fd) == [] && (fd !in base.epoll.open || base.Usable(fd));
    }
    ghost var before := base.epoll.registered;
    base.epoll.Close(fd);
    OtherFds(before, base.epoll.registered, fd);
    assert base.epoll.registered.Keys <= base.epoll.open;
    assert base.View(fd) == NOTHING;
    assert forall f :: f != fd ==> base.View(f) == old(base.View(f)) && base.Registered(f) == old(base.Registered(f));
  }

  /** Its number is used again. */
  method Open(base: EventBase, fd: int, ghost w: World)
    requires Follows(base, w)
    modifies base.epoll`open
    ensures Follows(base, w.(open := w.open + {fd}))
  {
    hide Replay, Wanted, EventBase.ChangelistOk, EventBase.CountsOk, EventBase.QueueOk;
    NothingWanted();
    if fd !in base.epoll.open {
      NothingAsked(base, fd);
    }
    base.epoll.Open(fd);
    assert forall f :: base.View(f) == old(base.View(f)) && base.Registered(f) == old(base.Registered(f));
  }

  lemma NothingWanted()
    ensures Wanted([]) == NOTHING
  {
  }

  /** One call on the event base, or on the kernel behind its back. */
  method Perform(base: EventBase, op: Op, ghost w: World)
    requires Follows(base, w) && Allowed(w, op)
    modifies base, base.epoll
    ensures Follows(base, Step(w, op))
    ensures op.OpDispatch? ==> base.changes == [] && base.queue == [] && forall fd :: base.Usable(fd) ==> base.Kernel(fd) == Wanted(w.Of(fd))
    ensures (op.OpAdd? || op.OpDel? || op.OpOpen?) && !base.backend.Epoll? ==> base.epoll.registered == old(base.epoll.registered)
  {
    hide EventBase.Coherent, EventBase.View, EventBase.Registered, Wanted;
    match op {
      case OpAdd(fd, ev) =>
        CountSnoc(w.Of(fd), ev);
        var _ := base.IoAdd(fd, ev);
      case OpDel(fd, ev) =>
        var _ := base.IoDel(fd, ev);
      case OpDispatch =>
        base.Dispatch();
      case OpClose(fd) =>
        Close(base, fd, w);
      case OpOpen(fd) =>
        Open(base, fd, w);
    }
  }

  /** Any legal run, then a dispatch: the kernel watches on every open descriptor what the registered events want. */
  method Run(base: EventBase, ops: seq<Op>, ghost w: World)
    requires Follows(base, w) && Legal(w, ops)
    modifies base, base.epoll
    ensures Follows(base, After(w, ops))
    ensures forall fd :: fd in base.epoll.open ==> base.Kernel(fd) == Wanted(After(w, ops).Of(fd))
    decreases |ops|
  {
    if ops == [] {
      base.Dispatch();
    } else {
      Perform(base, ops[0], w);
      Run(base, ops[1..], Step(w, ops[0]));
    }
  }

  method RunFrom(backend: Backend, ops: seq<Op>, open: set<int>, files: set<int>, nevents: nat) returns (base: EventBase)
    requires Legal(World(map[], open), ops) && nevents > 0
    ensures base.backend == backend && base.epoll.open == After(World(map[], open), ops).open
    ensures forall fd :: fd in base.epoll.open ==> base.Kernel(fd) == Wanted(After(World(map[], open), ops).Of(fd))
  {
    var epoll := new EpollSet(open, files);
    base := new EventBase(backend, epoll, nevents);
    Run(base, ops, World(map[], open));
  }

  /**
   * The same run through immediate epoll calls, the changelist and the /dev/poll queue ends at the same kernel sets,
   * also on numbers that were closed and used again while changes for them were pending.
   */
  method BackendsAgree(ops: seq<Op>, open: set<int>, files: set<int>, nevents: nat) returns (a: EventBase, b: EventBase, c: EventBase)
    requires Legal(World(map[], open), ops) && nevents > 0
    ensures a.backend == Epoll && b.backend == EpollChangelist && c.backend == Devpoll
    ensures var w := After(World(map[], open), ops);
            forall fd :: fd in w.open ==> a.Kernel(fd) == b.Kernel(fd) == c.Kernel(fd) == Wanted(w.Of(fd))
  {
    a := RunFrom(Epoll, ops, open, files, nevents);
    b := RunFrom(EpollChangelist, ops, open, files, nevents);
    c := RunFrom(Devpoll, ops, open, files, nevents);
  }
}
