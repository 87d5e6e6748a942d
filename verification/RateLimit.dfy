/** Suspending and resuming bufferevents, alone and in groups, as their token buckets empty and fill. */
module RateLimits {
  import opened TailQueues
  import opened TokenBuckets

  /** The BEV_SUSPEND_ flags. */
  datatype Reason = Watermark | Bandwidth | GroupBandwidth | Lookup | FilterRead

  /** refill_bucket_event; Active once it has gone off and its callback has not run yet. */
  datatype Timer = Idle | Scheduled | Active

  /** A configuration; id is its address, by which bufferevent_set_rate_limit compares. */
  datatype Cfg = NoCfg | Cfg(id: nat, rate: Both<nat>, maximum: Both<nat>) {
    predicate Ok()
      requires Cfg?
    {
      CfgOk(rate.read, maximum.read) && CfgOk(rate.write, maximum.write)
    }
  }

  const MAX_EVER := 16384

  /** What a group does to a member whose lock it gets. */
  datatype Move = Hold | Free | Keep

  ghost function Next(reasons: set<Reason>, move: Move, isLocked: bool): set<Reason>
  {
    if isLocked || move.Keep? then reasons else if move.Hold? then reasons + {GroupBandwidth} else reasons - {GroupBandwidth}
  }

  /** The reasons with, or without, an exhausted bucket. */
  function Barred(reasons: set<Reason>, limit: int): set<Reason>
  {
    if limit <= 0 then reasons + {Bandwidth} else reasons - {Bandwidth}
  }

  function Other(d: Dir): Dir
  {
    if d == Read then Write else Read
  }

  /** The fields of a bufferevent; what the backend does follows from them. */
  datatype View = View(enabled: set<Dir>, suspended: Both<set<Reason>>, cfg: Cfg, limit: Both<int>, lastUpdated: nat, refill: Timer)

  ghost predicate Running(v: View, d: Dir)
  {
    d in v.enabled && v.suspended.At(d) == {}
  }

  /** Bytes have moved: an empty bucket suspends. */
  ghost function Used(v: View, d: Dir, bytes: nat): View
  {
    if v.cfg.NoCfg? then v
    else
      var limit := v.limit.With(d, ToSigned(v.limit.At(d) - bytes));
      v.(limit := limit, suspended := v.suspended.With(d, Barred(v.suspended.At(d), limit.At(d))),
         refill := if limit.At(d) <= 0 then Scheduled
                   else if Bandwidth in v.suspended.At(d) && Bandwidth !in v.suspended.At(Other(d)) then Idle else v.refill)
  }

  /** The program has charged or given bytes: what matters is whether the bucket was empty and is. */
  ghost function Decremented(v: View, d: Dir, decr: int): View
  {
    var limit := v.limit.With(d, ToSigned(v.limit.At(d) - decr));
    if (v.limit.At(d) > 0) == (limit.At(d) > 0) then v.(limit := limit)
    else
      v.(limit := limit, suspended := v.suspended.With(d, Barred(v.suspended.At(d), limit.At(d))),
         refill := if limit.At(d) <= 0 then Scheduled else if Bandwidth !in v.suspended.At(Other(d)) then Idle else v.refill)
  }

  /** The buckets have what the ticks are worth. */
  ghost function Filled(v: View, tick: nat): View
  {
    if v.cfg.NoCfg? then v
    else
      var n := TicksSince(v.lastUpdated, tick);
      v.(limit := Both(UpdateLimit(v.limit.read, v.cfg.rate.read, v.cfg.maximum.read, n),
                       UpdateLimit(v.limit.write, v.cfg.rate.write, v.cfg.maximum.write, n)),
         lastUpdated := if n > 0 then tick else v.lastUpdated)
  }

  ghost function Eased(reasons: set<Reason>, limit: int): set<Reason>
  {
    if limit > 0 then reasons - {Bandwidth} else reasons
  }

  lemma EasedIs(reasons: set<Reason>, limit: int)
    ensures Eased(reasons, limit) == if Bandwidth in reasons && limit <= 0 then reasons else reasons - {Bandwidth}
  {
  }

  /** A direction with bytes in its bucket goes on, and the timer is set again where one has none. */
  ghost function Refilled(v: View, tick: nat): View
  {
    var u := Filled(v, tick);
    var s := Both(Eased(u.suspended.read, u.limit.read), Eased(u.suspended.write, u.limit.write));
    u.(suspended := s, refill := if Bandwidth in s.read || Bandwidth in s.write then Scheduled else Idle)
  }

  /** Other limits: full buckets at first, and no more than fits later. */
  ghost function Configured(v: View, c: Cfg, tick: nat): View
  {
    if c == v.cfg then v
    else if c.NoCfg? then
      v.(cfg := c, suspended := Both(v.suspended.read - {Bandwidth}, v.suspended.write - {Bandwidth}), refill := Idle)
    else
      var limit := if v.cfg.NoCfg? then Both(c.rate.read as int, c.rate.write as int)
                   else Both(Min(v.limit.read, c.maximum.read), Min(v.limit.write, c.maximum.write));
      v.(cfg := c, limit := limit, lastUpdated := if v.cfg.NoCfg? then tick else v.lastUpdated,
         suspended := Both(Barred(v.suspended.read, limit.read), Barred(v.suspended.write, limit.write)),
         refill := if limit.read <= 0 || limit.write <= 0 then Scheduled else Idle)
  }

  class Bufferevent {
    var enabled: set<Dir>
    var suspended: Both<set<Reason>>
    /** What be_ops was last told: the directions in which the backend moves bytes. */
    var backend: set<Dir>
    var cfg: Cfg
    var limit: Both<int>
    var lastUpdated: nat
    var refill: Timer
    var group: Group?

    constructor ()
      ensures Valid() && Stops() && Within() && group == null && Look() == View({}, Both({}, {}), NoCfg, Both(0, 0), 0, Idle)
    {
      enabled, backend, suspended := {}, {}, Both({}, {});
      cfg, limit, lastUpdated, refill, group := NoCfg, Both(0, 0), 0, Idle, null;
    }

    ghost function Look(): View
      reads `enabled, `suspended, `cfg, `limit, `lastUpdated, `refill
    {
      View(enabled, suspended, cfg, limit, lastUpdated, refill)
    }

    /** The backend runs in a direction just when that is enabled and nothing suspends it. */
    ghost predicate Runs()
      reads `enabled, `suspended, `backend
    {
      forall d :: d in backend <==> d in enabled && suspended.At(d) == {}
    }

    /** A refill is on its way just while something waits for bandwidth. */
    ghost predicate Refills()
      reads `suspended, `cfg, `limit, `refill
    {
      && (refill != Idle <==> Bandwidth in suspended.read || Bandwidth in suspended.write)
      && (cfg.NoCfg? ==> refill == Idle)
      && (cfg.Cfg? ==> cfg.Ok() && forall d: Dir :: InRange(limit.At(d)))
    }

    /** An exhausted bucket suspends. */
    ghost predicate Stops()
      reads `suspended, `cfg, `limit
    {
      cfg.Cfg? ==> forall d: Dir :: limit.At(d) <= 0 ==> Bandwidth in suspended.At(d)
    }

    /** The buckets hold no more than their maximum. */
    ghost predicate Within()
      reads `cfg, `limit
    {
      cfg.Cfg? ==> forall d: Dir :: limit.At(d) <= cfg.maximum.At(d)
    }

    ghost predicate Valid()
      reads this
    {
      Runs() && Refills()
    }

    /** bufferevent_suspend_read, bufferevent_suspend_write. */
    method Suspend(d: Dir, what: set<Reason>)
      requires Runs() && what != {}
      modifies `suspended, `backend
      ensures Runs() && suspended == old(suspended).With(d, old(suspended).At(d) + what)
      ensures Bandwidth !in what && old(Refills()) ==> Refills()
      ensures old(Stops()) ==> Stops()
    {
      if suspended.At(d) == {} {
        backend := backend - {d};
      }
      suspended := suspended.With(d, suspended.At(d) + what);
    }

    /** bufferevent_unsuspend_read, bufferevent_unsuspend_write. */
    method Unsuspend(d: Dir, what: set<Reason>)
      requires Runs()
      modifies `suspended, `backend
      ensures Runs() && suspended == old(suspended).With(d, old(suspended).At(d) - what)
      ensures Bandwidth !in what && old(Refills()) ==> Refills()
      ensures Bandwidth !in what && old(Stops()) ==> Stops()
    {
      suspended := suspended.With(d, suspended.At(d) - what);
      if suspended.At(d) == {} && d in enabled {
        backend := backend + {d};
      }
    }

    /** bufferevent_enable. */
    method Enable(ds: set<Dir>)
      requires Valid()
      modifies `enabled, `backend
      ensures Valid() && enabled == old(enabled) + ds
    {
      var impl := ds;
      if suspended.read != {} {
        impl := impl - {Read};
      }
      if suspended.write != {} {
        impl := impl - {Write};
      }
      assert forall d :: d in impl <==> d in ds && suspended.At(d) == {};
      enabled := enabled + ds;
      if impl != {} {
        backend := backend + impl;
      }
    }

    /** bufferevent_disable. */
    method Disable(ds: set<Dir>)
      requires Valid()
      modifies `enabled, `backend
      ensures Valid() && enabled == old(enabled) - ds
    {
      enabled := enabled - ds;
      backend := backend - ds;
    }

    /** ev_token_bucket_update; with buckets within their maximum the new limits are the smaller of that and the sum. */
    method Update(tick: nat)
      requires Refills() && cfg.Cfg?
      modifies `limit, `lastUpdated
      ensures Refills() && Look() == Filled(old(Look()), tick)
      ensures UpdatedTo(old(limit), old(lastUpdated), tick)
      ensures var n := TicksSince(old(lastUpdated), tick);
              old(Within()) ==> forall d :: limit.At(d) == Min(cfg.maximum.At(d), old(limit).At(d) + n * cfg.rate.At(d))
      ensures old(Within()) ==> Within() && (old(Stops()) ==> Stops())
    {
      var n := TicksSince(lastUpdated, tick);
      forall d ensures InRange(UpdateLimit(limit.At(d), cfg.rate.At(d), cfg.maximum.At(d), n)) {
        assert CfgOk(cfg.rate.At(d), cfg.maximum.At(d));
        UpdateAdds(limit.At(d), cfg.rate.At(d), cfg.maximum.At(d), n);
      }
      forall d | limit.At(d) <= cfg.maximum.At(d)
        ensures UpdateLimit(limit.At(d), cfg.rate.At(d), cfg.maximum.At(d), n)
                == Min(cfg.maximum.At(d), limit.At(d) + n * cfg.rate.At(d)) >= limit.At(d)
      {
        assert CfgOk(cfg.rate.At(d), cfg.maximum.At(d));
        UpdateIsMin(limit.At(d), cfg.rate.At(d), cfg.maximum.At(d), n);
      }
      hide UpdateLimit;
      if n > 0 {
        limit := Both(UpdateLimit(limit.read, cfg.rate.read, cfg.maximum.read, n),
                      UpdateLimit(limit.write, cfg.rate.write, cfg.maximum.write, n));
        lastUpdated := tick;
      } else {
        NoTicks(limit.read, cfg.rate.read, cfg.maximum.read);
        NoTicks(limit.write, cfg.rate.write, cfg.maximum.write);
      }
    }

    /** The buckets after an update; the ticks it has counted are not counted again. */
    ghost predicate UpdatedTo(limit0: Both<int>, lastUpdated0: nat, tick: nat)
      requires cfg.Cfg?
      reads `cfg, `limit, `lastUpdated
    {
      var n := TicksSince(lastUpdated0, tick);
      && lastUpdated == (if n > 0 then tick else lastUpdated0)
      && forall d :: limit.At(d) == UpdateLimit(limit0.At(d), cfg.rate.At(d), cfg.maximum.At(d), n)
    }

    /** A second update at the same tick changes nothing. */
    method UpdateAgain(tick: nat)
      requires Refills() && cfg.Cfg?
      modifies `limit, `lastUpdated
      ensures Refills() && UpdatedTo(old(limit), old(lastUpdated), tick)
    {
      Update(tick);
      NoTicksBack(tick, 0);
      Update(tick);
    }

    /** The first half of _bufferevent_decrement_read_buckets and its twin for writing. */
    method DecrementOwn(d: Dir, bytes: nat)
      requires Valid()
      modifies `suspended, `backend, `limit, `refill
      ensures Valid() && (old(Stops()) ==> Stops()) && Look() == Used(old(Look()), d, bytes)
      ensures limit == if cfg.Cfg? then old(limit).With(d, ToSigned(old(limit).At(d) - bytes)) else old(limit)
      ensures suspended == if cfg.Cfg? then old(suspended).With(d, Barred(old(suspended).At(d), limit.At(d))) else old(suspended)
      ensures refill == (if !cfg.Cfg? then old(refill) else if limit.At(d) <= 0 then Scheduled
                         else if Bandwidth in old(suspended).At(d) && Bandwidth !in old(suspended).At(Other(d)) then Idle else old(refill))
    {
      hide ToSigned;
      if cfg.Cfg? {
        ToSignedIs(limit.At(d) - bytes);
        limit := limit.With(d, ToSigned(limit.At(d) - bytes));
        forall e: Dir ensures InRange(limit.At(e)) && (e != d ==> limit.At(e) == old(limit).At(e)) {
          assert InRange(old(limit).At(e));
        }
        if limit.At(d) <= 0 {
          Suspend(d, {Bandwidth});
          refill := Scheduled;
        } else if Bandwidth in suspended.At(d) {
          if Bandwidth !in suspended.At(Other(d)) {
            refill := Idle;
          }
          Unsuspend(d, {Bandwidth});
        } else {
          assert suspended.At(d) - {Bandwidth} == suspended.At(d);
        }
      }
    }

    /** bufferevent_decrement_read_limit and its twin; the program may also give bytes, without a bound. */
    method DecrementLimit(d: Dir, decr: int)
      requires Valid() && cfg.Cfg?
      modifies `suspended, `backend, `limit, `refill
      ensures Valid() && (old(Stops()) ==> Stops()) && limit == old(limit).With(d, ToSigned(old(limit).At(d) - decr))
      ensures Look() == Decremented(old(Look()), d, decr)
      ensures var stops, starts := old(limit).At(d) > 0 && limit.At(d) <= 0, old(limit).At(d) <= 0 && limit.At(d) > 0;
              && suspended == (if stops || starts then old(suspended).With(d, Barred(old(suspended).At(d), limit.At(d)))
                               else old(suspended))
              && refill == (if stops then Scheduled
                            else if starts && Bandwidth !in old(suspended).At(Other(d)) then Idle else old(refill))
    {
      hide ToSigned;
      var before := limit.At(d);
      ToSignedIs(before - decr);
      limit := limit.With(d, ToSigned(before - decr));
      forall e: Dir ensures InRange(limit.At(e)) && (e != d ==> limit.At(e) == old(limit).At(e)) {
        assert InRange(old(limit).At(e));
      }
      if before > 0 && limit.At(d) <= 0 {
        Suspend(d, {Bandwidth});
        refill := Scheduled;
      } else if before <= 0 && limit.At(d) > 0 {
        if Bandwidth !in suspended.At(Other(d)) {
          refill := Idle;
        }
        Unsuspend(d, {Bandwidth});
      }
    }

    /** The refill timer goes off. */
    method RefillFires()
      requires Valid() && refill == Scheduled
      modifies `refill
      ensures Valid() && refill == Active && (old(Stops()) ==> Stops())
    {
      refill := Active;
    }

    /** One direction of _bev_refill_callback. */
    method Resume(d: Dir) returns (again: bool)
      requires Runs()
      modifies `suspended, `backend
      ensures Runs() && again == (Bandwidth in old(suspended).At(d) && limit.At(d) <= 0)
      ensures suspended == if again then old(suspended) else old(suspended).With(d, old(suspended).At(d) - {Bandwidth})
    {
      again := false;
      if Bandwidth in suspended.At(d) {
        if limit.At(d) > 0 {
          Unsuspend(d, {Bandwidth});
        } else {
          again := true;
        }
      } else {
        assert suspended.At(d) - {Bandwidth} == suspended.At(d);
      }
    }

    /** _bev_refill_callback: a direction resumes just when its bucket is above zero. */
    method RefillCallback(tick: nat)
      requires Valid() && refill == Active
      modifies `suspended, `backend, `limit, `lastUpdated, `refill
      ensures Valid() && forall d :: Bandwidth in suspended.At(d) <==> Bandwidth in old(suspended).At(d) && limit.At(d) <= 0
      ensures Look() == Refilled(old(Look()), tick)
      ensures refill == if Bandwidth in suspended.read || Bandwidth in suspended.write then Scheduled else Idle
      ensures UpdatedTo(old(limit), old(lastUpdated), tick)
      ensures var n := TicksSince(old(lastUpdated), tick);
              (old(Within()) ==> forall d :: limit.At(d) == Min(cfg.maximum.At(d), old(limit).At(d) + n * cfg.rate.At(d)))
      ensures old(Within()) ==> Within() && (old(Stops()) ==> Stops())
      ensures forall e, r :: r != Bandwidth ==> (r in suspended.At(e) <==> r in old(suspended).At(e))
    {
      hide UpdateLimit, Eased;
      Update(tick);
      EasedIs(suspended.read, limit.read);
      EasedIs(suspended.write, limit.write);
      refill := Idle;
      var again := Resume(Read);
      var againW := Resume(Write);
      if again || againW {
        refill := Scheduled;
      }
    }

    /** bufferevent_set_rate_limit. */
    method SetRateLimit(c: Cfg, tick: nat)
      requires Valid() && (c.Cfg? ==> c.Ok())
      modifies `suspended, `backend, `limit, `lastUpdated, `refill, `cfg
      ensures Look() == Configured(old(Look()), c, tick)
      ensures Valid() && cfg == c && lastUpdated == if c.Cfg? && old(cfg).NoCfg? then tick else old(lastUpdated)
      ensures c == old(cfg) && c.Cfg? ==> limit == old(limit) && suspended == old(suspended) && refill == old(refill)
      ensures c.NoCfg? ==> limit == old(limit) && forall d: Dir :: Bandwidth !in suspended.At(d)
      ensures c != old(cfg) ==> refill == if Bandwidth in suspended.read || Bandwidth in suspended.write then Scheduled else Idle
      ensures forall e, r :: r != Bandwidth ==> (r in suspended.At(e) <==> r in old(suspended).At(e))
      ensures c != old(cfg) ==> Stops() && Within()
      ensures c.Cfg? && c != old(cfg) ==> forall d: Dir ::
                && limit.At(d) == (if old(cfg).Cfg? then Min(old(limit).At(d), c.maximum.At(d)) else c.rate.At(d))
                && (Bandwidth in suspended.At(d) <==> limit.At(d) <= 0)
    {
      if c.NoCfg? {
        assert cfg.NoCfg? ==> suspended.read - {Bandwidth} == suspended.read && suspended.write - {Bandwidth} == suspended.write;
        cfg := NoCfg;
        Unsuspend(Read, {Bandwidth});
        Unsuspend(Write, {Bandwidth});
        refill := Idle;
        return;
      }
      if cfg == c {
        return;
      }
      var reinit := cfg.Cfg?;
      assert reinit ==> InRange(limit.At(Read)) && InRange(limit.At(Write));
      assert CfgOk(c.rate.At(Read), c.maximum.At(Read)) && CfgOk(c.rate.At(Write), c.maximum.At(Write));
      cfg := c;
      if reinit {
        limit := Both(Min(limit.read, c.maximum.read), Min(limit.write, c.maximum.write));
        refill := Idle;
      } else {
        limit, lastUpdated := Both(c.rate.read, c.rate.write), tick;
      }
      SetDirection(Read);
      SetDirection(Write);
      if limit.read <= 0 || limit.write <= 0 {
        refill := Scheduled;
      }
      forall d: Dir
        ensures InRange(limit.At(d)) && limit.At(d) <= c.maximum.At(d) && (limit.At(d) <= 0 <==> Bandwidth in suspended.At(d))
      {
        match d
        case Read =>
        case Write =>
      }
    }

    method SetDirection(d: Dir)
      requires Runs()
      modifies `suspended, `backend
      ensures Runs() && suspended == old(suspended).With(d, if limit.At(d) > 0 then old(suspended).At(d) - {Bandwidth}
                                                            else old(suspended).At(d) + {Bandwidth})
    {
      if limit.At(d) > 0 {
        Unsuspend(d, {Bandwidth});
      } else {
        Suspend(d, {Bandwidth});
      }
    }
  }

  lemma FreeTwice(reasons: set<Reason>, isLocked: bool)
    ensures Next(Next(reasons, Free, isLocked), Free, isLocked) == Next(reasons, Free, isLocked)
  {
  }

  ghost function Then(s: Both<set<Reason>>, d: Dir, move: Move, isLocked: bool): Both<set<Reason>>
  {
    s.With(d, Next(s.At(d), move, isLocked))
  }

  /** pending_unsuspend after a move: set just where a member could not be resumed. */
  ghost function After(pending: Both<bool>, d: Dir, move: Move, someLocked: bool): Both<bool>
  {
    if move.Keep? then pending else pending.With(d, move.Free? && someLocked)
  }

  /** A group and its members, as they look. */
  datatype GroupView = GroupView(
    cfg: Cfg,
    minShare: nat,
    limit: Both<int>,
    suspended: Both<bool>,
    pending: Both<bool>,
    lastUpdated: nat,
    total: Both<nat>,
    members: seq<View>
  )

  ghost predicate AnyIn(ms: seq<Bufferevent>, locked: set<Bufferevent>)
  {
    exists k :: 0 <= k < |ms| && ms[k] in locked
  }

  /** A move of every member that can be locked. */
  ghost function AllMoved(vs: seq<View>, ms: seq<Bufferevent>, d: Dir, move: Move, locked: set<Bufferevent>): (r: seq<View>)
    requires |vs| == |ms|
    ensures |r| == |vs|
  {
    seq(|vs|, i requires 0 <= i < |vs| => vs[i].(suspended := Then(vs[i].suspended, d, move, ms[i] in locked)))
  }

  /** Bytes of a member have moved: an empty bucket suspends all, and one that is not empty any more resumes them. */
  ghost function Billed(g: GroupView, ms: seq<Bufferevent>, d: Dir, bytes: nat, locked: set<Bufferevent>): (r: GroupView)
    requires |g.members| == |ms|
    ensures |r.members| == |ms| && r.cfg == g.cfg
  {
    var limit := g.limit.With(d, ToSigned(g.limit.At(d) - bytes));
    var move := if limit.At(d) <= 0 then Hold else if g.suspended.At(d) then Free else Keep;
    g.(limit := limit, total := g.total.With(d, g.total.At(d) + bytes), suspended := g.suspended.With(d, limit.At(d) <= 0),
       pending := After(g.pending, d, move, AnyIn(ms, locked)), members := AllMoved(g.members, ms, d, move, locked))
  }

  ghost function Topped(g: GroupView, tick: nat): (r: GroupView)
    requires g.cfg.Cfg?
    ensures r == g.(limit := r.limit, lastUpdated := r.lastUpdated)
  {
    var n := TicksSince(g.lastUpdated, tick);
    g.(limit := Both(UpdateLimit(g.limit.read, g.cfg.rate.read, g.cfg.maximum.read, n),
                     UpdateLimit(g.limit.write, g.cfg.rate.write, g.cfg.maximum.write, n)),
       lastUpdated := if n > 0 then tick else g.lastUpdated)
  }

  /** A direction resumes that has min_share in its bucket, or where members wait for a second try. */
  ghost function Freed(g: GroupView, ms: seq<Bufferevent>, d: Dir, locked: set<Bufferevent>): (r: GroupView)
    requires |g.members| == |ms|
    ensures |r.members| == |ms| && r.cfg == g.cfg
  {
    if !g.pending.At(d) && !(g.suspended.At(d) && g.limit.At(d) >= g.minShare) then g
    else
      g.(suspended := g.suspended.With(d, false), pending := g.pending.With(d, AnyIn(ms, locked)),
         members := AllMoved(g.members, ms, d, Free, locked))
  }

  /** A tick of the group's timer. */
  ghost function Ticked(g: GroupView, ms: seq<Bufferevent>, tick: nat, locked: set<Bufferevent>): (r: GroupView)
    requires g.cfg.Cfg? && |g.members| == |ms|
    ensures |r.members| == |ms| && r.cfg == g.cfg
  {
    Freed(Freed(Topped(g, tick), ms, Read, locked), ms, Write, locked)
  }

  /** A member asks how much may move: its own bucket is filled, and a suspended group suspends it. */
  ghost function Polled(v: View, barred: bool, d: Dir, tick: nat): View
  {
    var u := Filled(v, tick);
    if barred then u.(suspended := u.suspended.With(d, u.suspended.At(d) + {GroupBandwidth})) else u
  }

  ghost function Most(u: View, d: Dir, shared: int): nat
  {
    RlimMax(if u.cfg.Cfg? then u.limit.At(d) else MAX_EVER, shared)
  }

  /** Member i could move `wanted` bytes: as many move as its bucket and its share of the group's allow. */
  ghost function Served(g: GroupView, ms: seq<Bufferevent>, i: nat, d: Dir, tick: nat, wanted: nat, locked: set<Bufferevent>): (r: (GroupView, nat))
    requires |g.members| == |ms| && i < |ms|
    ensures |r.0.members| == |ms| && r.0.cfg == g.cfg
  {
    var v := g.members[i];
    var u := Polled(v, g.suspended.At(d), d, tick);
    if !Running(v, d) then (g, 0)
    else if g.suspended.At(d) then (g.(members := g.members[i := u]), 0)
    else
      var max := Most(u, d, Share(g.limit.At(d), |ms|, g.minShare));
      var moved := if wanted < max then wanted else max;
      (Billed(g.(members := g.members[i := Used(u, d, moved)]), ms, d, moved, locked), moved)
  }

  class Group {
    var cfg: Cfg
    var limit: Both<int>
    var lastUpdated: nat
    var suspended: Both<bool>
    /** pending_unsuspend_read and _write: some member could not be locked when the group resumed. */
    var pending: Both<bool>
    var members: seq<Bufferevent>
    var minShare: nat
    var configuredMinShare: nat
    /** total_read and total_written. */
    var total: Both<nat>
    /** What the ticks so far have added, and how many there were. */
    ghost var refilled: Both<int>
    ghost var ticks: nat

    /** bufferevent_rate_limit_group_new. */
    constructor (c: Cfg, tick: nat)
      requires c.Cfg? && c.Ok()
      ensures Valid() && Bounded() && members == [] && cfg == c && ticks == 0
    {
      cfg, limit, lastUpdated := c, Both(c.rate.read, c.rate.write), tick;
      suspended, pending, members, total := Both(false, false), Both(false, false), [], Both(0, 0);
      minShare, configuredMinShare := SharePart(64, c.rate), 64;
      refilled, ticks := Both(0, 0), 0;
    }

    /** The bucket is in its range, and resuming waits only in a group that is not suspended. */
    ghost predicate Limits()
      reads `cfg, `limit, `suspended, `pending, `minShare
    {
      cfg.Cfg? && cfg.Ok() && LimitsOf(Read) && LimitsOf(Write)
    }

    ghost predicate LimitsOf(d: Dir)
      requires cfg.Cfg?
      reads `cfg, `limit, `suspended, `pending, `minShare
    {
      && InRange(limit.At(d)) && minShare <= cfg.rate.At(d)
      && (pending.At(d) ==> !suspended.At(d))
    }

    /** The bucket holds no more than its maximum. */
    ghost predicate Within()
      reads `cfg, `limit
    {
      cfg.Cfg? && limit.read <= cfg.maximum.read && limit.write <= cfg.maximum.write
    }

    /** A group whose bucket is exhausted is suspended. */
    ghost predicate Guarded()
      reads `limit, `suspended
    {
      (!suspended.read ==> limit.read > 0) && (!suspended.write ==> limit.write > 0)
    }

    /** A member waits for the group only while the group will resume it. */
    ghost predicate Woken()
      reads this, members
    {
      && Distinct(members)
      && forall m :: m in members ==> m.group == this && m.Valid() && Waits(m.suspended)
    }

    ghost predicate Waits(s: Both<set<Reason>>)
      reads `suspended, `pending
    {
      && (GroupBandwidth in s.read ==> suspended.read || pending.read)
      && (GroupBandwidth in s.write ==> suspended.write || pending.write)
    }

    ghost predicate Valid()
      reads this, members
    {
      Limits() && Woken()
    }

    /** What has moved is what there was and came, but for what is left; and the debt is below min_share. */
    ghost predicate Bounded()
      reads `cfg, `limit, `minShare, `total, `refilled, `ticks, `suspended
    {
      Within() && minShare >= 1 && Guarded() && BoundedIn(Read) && BoundedIn(Write)
    }

    ghost predicate BoundedIn(d: Dir)
      requires cfg.Cfg?
      reads `cfg, `limit, `minShare, `total, `refilled, `ticks
    {
      && limit.At(d) + minShare > 0
      && total.At(d) + limit.At(d) == cfg.rate.At(d) + refilled.At(d)
      && refilled.At(d) <= ticks * cfg.rate.At(d)
    }

    ghost function Bevs(): set<Bufferevent>
      reads `members
    {
      set m | m in members
    }

    ghost function Look(): (v: GroupView)
      reads this, members
      ensures |v.members| == |members|
    {
      GroupView(cfg, minShare, limit, suspended, pending, lastUpdated, total,
                seq(|members|, i requires 0 <= i < |members| reads this, members => members[i].Look()))
    }

    /** In direction d every member that could be locked has been moved, and nothing else has changed in any. */
    twostate predicate Moved(d: Dir, move: Move, locked: set<Bufferevent>)
      reads this, members
    {
      && members == old(members)
      && forall m :: m in members ==> m.Look() == old(m.Look()).(suspended := Then(old(m.suspended), d, move, m in locked))
    }

    ghost predicate SomeLocked(locked: set<Bufferevent>)
      reads `members
    {
      exists k :: 0 <= k < |members| && members[k] in locked
    }

    /** _bev_group_suspend_reading and its twin; `locked` holds the members whose locks are taken. */
    method SuspendAll(d: Dir, locked: set<Bufferevent>)
      requires Woken()
      modifies `suspended, `pending, Bevs()`suspended, Bevs()`backend
      ensures Woken() && suspended == old(suspended).With(d, true) && pending == old(pending).With(d, false)
      ensures Moved(d, Hold, locked)
    {
      hide Distinct, Bufferevent.Refills, Bufferevent.Runs;
      suspended := suspended.With(d, true);
      pending := pending.With(d, false);
      for i := 0 to |members|
        modifies Bevs()`suspended, Bevs()`backend
        invariant Woken() && members == old(members)
        invariant forall m :: m in members ==> m.suspended == old(m.suspended) || m.suspended == Then(old(m.suspended), d, Hold, m in locked)
        invariant forall k :: 0 <= k < i ==> members[k].suspended == Then(old(members[k].suspended), d, Hold, members[k] in locked)
      {
        assert members[i] in members;
        if members[i] !in locked {
          members[i].Suspend(d, {GroupBandwidth});
        }
      }
    }

    /** One of the two loops over the members. */
    method ResumeRange(d: Dir, locked: set<Bufferevent>, a: nat, b: nat) returns (again: bool)
      requires Resumed(d) && a <= b <= |members|
      modifies Bevs()`suspended, Bevs()`backend
      ensures Resumed(d) && members == old(members)
      ensures again <==> exists k :: a <= k < b && members[k] in locked
      ensures forall k :: a <= k < b ==> members[k].suspended == Then(old(members[k].suspended), d, Free, members[k] in locked)
      ensures forall m :: m in members ==> m.suspended == old(m.suspended) || m.suspended == Then(old(m.suspended), d, Free, m in locked)
    {
      hide Distinct, Bufferevent.Refills, Bufferevent.Runs;
      again := false;
      for i := a to b
        invariant Resumed(d) && members == old(members)
        invariant again <==> exists k :: a <= k < i && members[k] in locked
        invariant forall m :: m in members ==> m.suspended == old(m.suspended) || m.suspended == Then(old(m.suspended), d, Free, m in locked)
        invariant forall k :: a <= k < i ==> members[k].suspended == Then(old(members[k].suspended), d, Free, members[k] in locked)
      {
        assert members[i] in members;
        FreeTwice(old(members[i].suspended).At(d), members[i] in locked);
        if members[i] !in locked {
          members[i].Unsuspend(d, {GroupBandwidth});
        } else {
          again := true;
        }
      }
    }

    /** _bev_group_unsuspend_reading and its twin, from a random member on and round to it. */
    method UnsuspendAll(d: Dir, locked: set<Bufferevent>, first: nat)
      requires Woken() && first <= |members|
      modifies `suspended, `pending, Bevs()`suspended, Bevs()`backend
      ensures Woken() && suspended == old(suspended).With(d, false) && pending == old(pending).With(d, SomeLocked(locked))
      ensures Moved(d, Free, locked)
    {
      hide Distinct, Bufferevent.Refills, Bufferevent.Runs;
      suspended := suspended.With(d, false);
      var again := ResumeRange(d, locked, first, |members|);
      var againLow := ResumeRange(d, locked, 0, first);
      pending := pending.With(d, again || againLow);
      forall m | m in members ensures Waits(m.suspended) && m.suspended == Then(old(m.suspended), d, Free, m in locked) {
        var k :| 0 <= k < |members| && members[k] == m;
        FreeTwice(old(m.suspended).At(d), m in locked);
        assert GroupBandwidth in m.suspended.At(d) ==> pending.At(d);
      }
    }

    /** As Woken, while direction d is being resumed. */
    ghost predicate Resumed(d: Dir)
      reads this, members
    {
      && Distinct(members)
      && (forall m :: m in members ==> m.group == this && m.Valid())
      && (forall m :: m in members && d == Write && GroupBandwidth in m.suspended.read ==> suspended.read || pending.read)
      && (forall m :: m in members && d == Read && GroupBandwidth in m.suspended.write ==> suspended.write || pending.write)
    }

    /** The bound on the throughput of a group. */
    lemma Throughput(d: Dir)
      requires Limits() && Bounded()
      ensures total.At(d) < cfg.maximum.At(d) + ticks * cfg.rate.At(d) + minShare
    {
      assert CfgOk(cfg.rate.At(d), cfg.maximum.At(d));
    }

    /** The group's half of _bufferevent_decrement_read_buckets and its twin. */
    method Charge(d: Dir, bytes: nat, locked: set<Bufferevent>, first: nat)
      requires Valid() && first <= |members|
      modifies `limit, `total, `suspended, `pending, Bevs()`suspended, Bevs()`backend
      ensures Valid() && limit == old(limit).With(d, ToSigned(old(limit).At(d) - bytes))
      ensures old(Guarded()) ==> Guarded()
      ensures total == old(total).With(d, old(total).At(d) + bytes) && suspended == old(suspended).With(d, limit.At(d) <= 0)
      ensures var move := if limit.At(d) <= 0 then Hold else if old(suspended).At(d) then Free else Keep;
              Moved(d, move, locked) && pending == After(old(pending), d, move, SomeLocked(locked))
    {
      hide Woken, ToSigned;
      ToSignedIs(limit.At(d) - bytes);
      limit := limit.With(d, ToSigned(limit.At(d) - bytes));
      total := total.With(d, total.At(d) + bytes);
      KeptWaiting();
      if limit.At(d) <= 0 {
        SuspendAll(d, locked);
      } else if suspended.At(d) {
        UnsuspendAll(d, locked, first);
      }
    }

    /** _bev_group_refill_callback: a direction resumes with min_share in its bucket, or where members wait for a second try. */
    method RefillCallback(tick: nat, locked: set<Bufferevent>, firstRead: nat, firstWrite: nat)
      requires Valid() && firstRead <= |members| && firstWrite <= |members|
      modifies `limit, `lastUpdated, `refilled, `ticks, `suspended, `pending, Bevs()`suspended, Bevs()`backend
      ensures Valid() && (old(Bounded()) ==> Bounded()) && (old(Guarded() && Within()) && minShare >= 1 ==> Guarded())
      ensures Updated(tick)
      ensures forall d :: suspended.At(d) <==> old(suspended).At(d) && limit.At(d) < minShare
      ensures forall d :: pending.At(d) <==> if Resumes(d, old(pending), old(suspended)) then SomeLocked(locked) else old(pending).At(d)
      ensures members == old(members)
      ensures forall m :: m in members ==>
                m.Look() == old(m.Look()).(suspended :=
                  Both(Next(old(m.suspended).read, if Resumes(Read, old(pending), old(suspended)) then Free else Keep, m in locked),
                       Next(old(m.suspended).write, if Resumes(Write, old(pending), old(suspended)) then Free else Keep, m in locked)))
    {
      hide Woken;
      Update(tick);
      KeptWaiting();
      ResumeFull(Read, locked, firstRead);
      ResumeFull(Write, locked, firstWrite);
    }

    ghost predicate Resumes(d: Dir, pending: Both<bool>, suspended: Both<bool>)
      reads `limit, `minShare
    {
      pending.At(d) || (suspended.At(d) && limit.At(d) >= minShare)
    }

    /** One direction of _bev_group_refill_callback. */
    method ResumeFull(d: Dir, locked: set<Bufferevent>, first: nat)
      requires Valid() && first <= |members|
      modifies `suspended, `pending, Bevs()`suspended, Bevs()`backend
      ensures Valid() && (old(Bounded()) ==> Bounded()) && (old(Guarded()) && minShare >= 1 ==> Guarded())
      ensures suspended == old(suspended).With(d, old(suspended).At(d) && limit.At(d) < minShare)
      ensures var move := if Resumes(d, old(pending), old(suspended)) then Free else Keep;
              Moved(d, move, locked) && pending == After(old(pending), d, move, SomeLocked(locked))
    {
      hide Woken;
      if pending.At(d) || (suspended.At(d) && limit.At(d) >= minShare) {
        UnsuspendAll(d, locked, first);
      }
    }

    /** The bucket is refilled for the ticks since the last time, of which a later refill counts none again. */
    twostate predicate Updated(tick: nat)
      requires cfg.Cfg?
      reads `cfg, `limit, `lastUpdated, `refilled, `ticks
    {
      var n := TicksSince(old(lastUpdated), tick);
      && ticks == old(ticks) + n && lastUpdated == (if n > 0 then tick else old(lastUpdated))
      && (forall d :: limit.At(d) == UpdateLimit(old(limit).At(d), cfg.rate.At(d), cfg.maximum.At(d), n))
      && (forall d :: refilled.At(d) == old(refilled).At(d) + limit.At(d) - old(limit).At(d) <= old(refilled).At(d) + n * cfg.rate.At(d))
    }

    /** ev_token_bucket_update on the group's bucket. */
    method Update(tick: nat)
      requires Limits()
      modifies `limit, `lastUpdated, `refilled, `ticks
      ensures Limits() && (old(Bounded()) ==> Bounded()) && (old(Guarded() && Within()) ==> Guarded() && Within())
      ensures Updated(tick)
      ensures var n := TicksSince(old(lastUpdated), tick);
              old(Within()) ==> forall d :: limit.At(d) == Min(cfg.maximum.At(d), old(limit).At(d) + n * cfg.rate.At(d))
    {
      var n := TicksSince(lastUpdated, tick);
      UpdateAdds(limit.read, cfg.rate.read, cfg.maximum.read, n);
      UpdateAdds(limit.write, cfg.rate.write, cfg.maximum.write, n);
      if Within() {
        UpdateIsMin(limit.read, cfg.rate.read, cfg.maximum.read, n);
        UpdateIsMin(limit.write, cfg.rate.write, cfg.maximum.write, n);
      }
      hide UpdateLimit, TicksSince;
      ghost var before := limit;
      limit := Both(UpdateLimit(limit.read, cfg.rate.read, cfg.maximum.read, n),
                    UpdateLimit(limit.write, cfg.rate.write, cfg.maximum.write, n));
      if n > 0 {
        lastUpdated := tick;
      }
      refilled := Both(refilled.read + limit.read - before.read, refilled.write + limit.write - before.write);
      Distribute(ticks, n, cfg.rate.read);
      Distribute(ticks, n, cfg.rate.write);
      ticks := ticks + n;
    }

    /** A second refill at the same tick changes nothing. */
    method UpdateAgain(tick: nat)
      requires Limits()
      modifies `limit, `lastUpdated, `refilled, `ticks
      ensures Limits() && Updated(tick)
    {
      Update(tick);
      NoTicksBack(tick, 0);
      Update(tick);
    }

    /** bufferevent_rate_limit_group_decrement_read and its twin; bytes may be given, without a bound. */
    method DecrementLimit(d: Dir, decr: int, locked: set<Bufferevent>, first: nat)
      requires Valid() && first <= |members|
      modifies `limit, `suspended, `pending, Bevs()`suspended, Bevs()`backend
      ensures Valid() && limit == old(limit).With(d, ToSigned(old(limit).At(d) - decr))
      ensures old(Guarded()) ==> Guarded()
      ensures var move := if old(limit).At(d) > 0 && limit.At(d) <= 0 then Hold
                          else if old(limit).At(d) <= 0 && limit.At(d) > 0 then Free else Keep;
              && Moved(d, move, locked) && pending == After(old(pending), d, move, SomeLocked(locked))
              && suspended == if move.Keep? then old(suspended) else old(suspended).With(d, move.Hold?)
    {
      hide Woken, ToSigned;
      var before := limit.At(d);
      ToSignedIs(before - decr);
      limit := limit.With(d, ToSigned(before - decr));
      KeptWaiting();
      if before > 0 && limit.At(d) <= 0 {
        SuspendAll(d, locked);
      } else if before <= 0 && limit.At(d) > 0 {
        UnsuspendAll(d, locked, first);
      }
    }

    /** bufferevent_rate_limit_group_set_min_share. */
    method SetMinShare(share: nat)
      requires cfg.Cfg?
      modifies `minShare, `configuredMinShare
      ensures configuredMinShare == share && minShare <= share && minShare <= cfg.rate.read && minShare <= cfg.rate.write
      ensures minShare == share || minShare == cfg.rate.read || minShare == cfg.rate.write
    {
      configuredMinShare := share;
      minShare := SharePart(share, cfg.rate);
    }

    /** bufferevent_rate_limit_group_set_cfg. */
    method SetCfg(c: Cfg)
      requires Valid() && c.Cfg? && c.Ok()
      modifies `cfg, `limit, `minShare, `configuredMinShare
      ensures Valid() && Within() && cfg == c && configuredMinShare == old(configuredMinShare) && (old(Guarded()) ==> Guarded())
      ensures minShare == SharePart(configuredMinShare, c.rate)
      ensures forall d: Dir :: limit.At(d) == Min(old(limit).At(d), c.maximum.At(d))
    {
      cfg := c;
      limit := Both(Min(limit.read, c.maximum.read), Min(limit.write, c.maximum.write));
      SetMinShare(configuredMinShare);
    }

    /** The second half of bufferevent_add_to_rate_limit_group. */
    method AddMember(bev: Bufferevent)
      requires Valid() && bev.Valid() && bev.group == null
      requires GroupBandwidth !in bev.suspended.read && GroupBandwidth !in bev.suspended.write
      modifies `members, bev`group, bev`suspended, bev`backend
      ensures Valid() && members == old(members) + [bev] && bev.Valid() && bev.group == this
      ensures bev.suspended == Both(Next(old(bev.suspended).read, if suspended.read then Hold else Keep, false),
                                    Next(old(bev.suspended).write, if suspended.write then Hold else Keep, false))
    {
      AppendDistinct(members, bev);
      assert GroupBandwidth !in bev.suspended.At(Read) && GroupBandwidth !in bev.suspended.At(Write);
      bev.group := this;
      members := members + [bev];
      if suspended.read {
        bev.Suspend(Read, {GroupBandwidth});
      }
      if suspended.write {
        bev.Suspend(Write, {GroupBandwidth});
      }
    }

    /** bufferevent_remove_from_rate_limit_group. */
    method RemoveMember(bev: Bufferevent)
      requires Valid() && bev in members
      modifies `members, bev`group, bev`suspended, bev`backend
      ensures Valid() && members == Remove(old(members), bev) && bev !in members && bev.Valid() && bev.group == null
      ensures bev.suspended == Both(old(bev.suspended).read - {GroupBandwidth}, old(bev.suspended).write - {GroupBandwidth})
    {
      RemoveDistinct(members, bev);
      bev.group := null;
      members := Remove(members, bev);
      bev.Unsuspend(Read, {GroupBandwidth});
      bev.Unsuspend(Write, {GroupBandwidth});
    }

    /** The group's part of _bufferevent_get_rlim_max. */
    method ShareFor(bev: Bufferevent, d: Dir) returns (share: int)
      requires Valid() && bev in members
      modifies bev`suspended, bev`backend
      ensures Valid() && bev.suspended == if suspended.At(d) then old(bev.suspended).With(d, old(bev.suspended).At(d) + {GroupBandwidth})
                                          else old(bev.suspended)
      ensures share == if suspended.At(d) then 0 else Share(limit.At(d), |members|, minShare)
    {
      if suspended.At(d) {
        bev.Suspend(d, {GroupBandwidth});
        return 0;
      }
      share := Quotient(limit.At(d), |members|);
      if share < minShare {
        share := minShare;
      }
    }

    /** _bufferevent_decrement_read_buckets and its twin, for a member of the group. */
    method Pay(bev: Bufferevent, d: Dir, bytes: nat, locked: set<Bufferevent>, first: nat)
      requires Valid() && bev in members && first <= |members|
      modifies `limit, `total, `suspended, `pending, Bevs()`suspended, Bevs()`backend, bev`limit, bev`refill
      ensures Valid() && (old(Guarded()) ==> Guarded()) && members == old(members)
      ensures limit == old(limit).With(d, ToSigned(old(limit).At(d) - bytes)) && total == old(total).With(d, old(total).At(d) + bytes)
      ensures suspended == old(suspended).With(d, limit.At(d) <= 0)
      ensures bev.limit == if bev.cfg.Cfg? then old(bev.limit).With(d, ToSigned(old(bev.limit).At(d) - bytes)) else old(bev.limit)
      ensures var move := if limit.At(d) <= 0 then Hold else if old(suspended).At(d) then Free else Keep;
              && pending == After(old(pending), d, move, SomeLocked(locked))
              && forall m :: m in members ==> var v := if m == bev then Used(old(m.Look()), d, bytes) else old(m.Look());
                   m.Look() == v.(suspended := Then(v.suspended, d, move, m in locked))
    {
      hide Woken, Limits;
      assert bev.Valid() by { MemberValid(bev); }
      bev.DecrementOwn(d, bytes);
      assert GroupBandwidth in bev.suspended.At(Read) <==> GroupBandwidth in old(bev.suspended).At(Read);
      assert GroupBandwidth in bev.suspended.At(Write) <==> GroupBandwidth in old(bev.suspended).At(Write);
      KeptMember(bev);
      Charge(d, bytes, locked, first);
    }

    /** The group itself is as it was. */
    twostate predicate Same()
      reads this
    {
      limit == old(limit) && total == old(total) && suspended == old(suspended) && pending == old(pending)
    }

    lemma AllApart()
      requires Valid()
      ensures Distinct(members)
    {
    }

    lemma MemberValid(bev: Bufferevent)
      requires Woken() && bev in members
      ensures bev.Valid() && bev.group == this
    {
    }

    twostate lemma KeptMember(bev: Bufferevent)
      requires old(Woken()) && bev in members && bev.Valid() && unchanged(this) && bev.group == old(bev.group)
      requires GroupBandwidth in bev.suspended.read <==> GroupBandwidth in old(bev.suspended).read
      requires GroupBandwidth in bev.suspended.write <==> GroupBandwidth in old(bev.suspended).write
      requires forall m :: m in members && m != bev ==> unchanged(m)
      ensures Woken()
    {
    }

    twostate lemma KeptWaiting()
      requires old(Woken()) && members == old(members) && suspended == old(suspended) && pending == old(pending)
      requires forall m :: m in members ==> unchanged(m)
      ensures Woken()
    {
    }
  }

  /** C's division, towards zero. */
  function Quotient(a: int, b: nat): int
    requires b > 0
  {
    if a < 0 then -((-a) / b) else a / b
  }

  /** The even share of a group's bucket, or min_share where that is more. */
  function Share(limit: int, n: nat, minShare: nat): int
    requires n > 0
  {
    if Quotient(limit, n) < minShare then minShare else Quotient(limit, n)
  }

  /** The members' shares use up the bucket but for less than one byte each, and none is below min_share. */
  lemma ShareIsEven(limit: nat, n: nat, minShare: nat)
    requires n > 0
    ensures minShare <= Share(limit, n, minShare) && limit < n * (Share(limit, n, minShare) + 1)
    ensures Share(limit, n, minShare) > minShare ==> n * Share(limit, n, minShare) <= limit
  {
    var q := limit / n;
    assert limit == n * q + limit % n;
    if q < minShare {
      assert n * (q + 1) <= n * (minShare + 1);
    }
  }

  /** The bytes that the own bucket and the group leave to move now. */
  ghost function RlimMax(own: int, shared: int): nat
  {
    if own < 0 || shared < 0 then 0 else Min(own, shared)
  }

  /** _bufferevent_get_rlim_max: how much may move now. */
  method GetRlimMax(bev: Bufferevent, g: Group?, d: Dir, tick: nat) returns (max: nat)
    requires bev.Valid() && bev.group == g && (g != null ==> g.Valid() && bev in g.members)
    modifies bev`limit, bev`lastUpdated, bev`suspended, bev`backend
    ensures bev.Valid() && (g != null ==> g.Valid())
    ensures bev.Look() == Polled(old(bev.Look()), g != null && g.suspended.At(d), d, tick)
    ensures if bev.cfg.Cfg? then bev.UpdatedTo(old(bev.limit), old(bev.lastUpdated), tick)
            else bev.limit == old(bev.limit) && bev.lastUpdated == old(bev.lastUpdated)
    ensures bev.suspended == if g != null && g.suspended.At(d) then old(bev.suspended).With(d, old(bev.suspended).At(d) + {GroupBandwidth})
                             else old(bev.suspended)
    ensures var own := if bev.cfg.Cfg? then bev.limit.At(d) else MAX_EVER;
            max == RlimMax(own, if g == null then own else if g.suspended.At(d) then 0 else Share(g.limit.At(d), |g.members|, g.minShare))
  {
    var soFar: int := MAX_EVER;
    if bev.cfg.Cfg? {
      bev.Update(tick);
      soFar := bev.limit.At(d);
    }
    if g != null {
      var share := g.ShareFor(bev, d);
      if soFar > share {
        soFar := share;
      }
    }
    max := if soFar < 0 then 0 else soFar;
  }

  lemma {:induction false} OnlyThere(ms: seq<Bufferevent>, i: nat, j: nat)
    requires Distinct(ms) && i < |ms| && j < |ms| && ms[i] == ms[j]
    ensures i == j
  {
    if 0 < i && 0 < j {
      OnlyThere(ms[1..], i - 1, j - 1);
    }
  }

  /** A member after one call for one of them: that one asks and is charged, and an empty bucket suspends all. */
  ghost function Turned(v: View, isOne: bool, running: bool, barred: bool, d: Dir, tick: nat, moved: nat, limit: int, isLocked: bool): View
  {
    if !running then v
    else if barred then (if isOne then Polled(v, true, d, tick) else v)
    else
      var u := if isOne then Used(Polled(v, false, d, tick), d, moved) else v;
      u.(suspended := Then(u.suspended, d, if limit <= 0 then Hold else Keep, isLocked))
  }

  ghost function NoView(): GroupView
  {
    GroupView(NoCfg, 0, Both(0, 0), Both(false, false), Both(false, false), 0, Both(0, 0), [])
  }

  /** What it does to the members, and to the group, is what Served says. */
  lemma ServedIs(g: GroupView, h: GroupView, ms: seq<Bufferevent>, i: nat, d: Dir, tick: nat, wanted: nat, locked: set<Bufferevent>, moved: nat)
    requires |g.members| == |h.members| == |ms| && i < |ms| && Distinct(ms)
    requires h == g.(limit := h.limit, total := h.total, suspended := h.suspended, pending := h.pending, members := h.members)
    requires forall j :: 0 <= j < |ms| ==>
               h.members[j] == Turned(g.members[j], ms[j] == ms[i], Running(g.members[i], d), g.suspended.At(d), d, tick, moved, h.limit.At(d), ms[j] in locked)
    requires if Running(g.members[i], d) && !g.suspended.At(d)
             then var max := Most(Polled(g.members[i], false, d, tick), d, Share(g.limit.At(d), |ms|, g.minShare));
               && moved == (if wanted < max then wanted else max)
               && h.limit == g.limit.With(d, ToSigned(g.limit.At(d) - moved)) && h.total == g.total.With(d, g.total.At(d) + moved)
               && h.suspended == g.suspended.With(d, h.limit.At(d) <= 0)
               && h.pending == After(g.pending, d, if h.limit.At(d) <= 0 then Hold else Keep, AnyIn(ms, locked))
             else moved == 0 && h == g.(members := h.members)
    ensures (h, moved) == Served(g, ms, i, d, tick, wanted, locked)
  {
    hide Polled, Running, Used, Then, After, Share, Most, ToSigned;
    forall j | 0 <= j < |ms| && ms[j] == ms[i] ensures j == i {
      OnlyThere(ms, i, j);
    }
    if !Running(g.members[i], d) {
      assert h.members == g.members;
    } else if g.suspended.At(d) {
      assert h.members == g.members[i := Polled(g.members[i], true, d, tick)];
    } else {
      var vs := g.members[i := Used(Polled(g.members[i], false, d, tick), d, moved)];
      assert h.members == AllMoved(vs, ms, d, if h.limit.At(d) <= 0 then Hold else Keep, locked);
    }
  }

  /** Its effect on the group and on each member. */
  method TransferBytes(bev: Bufferevent, g: Group?, d: Dir, tick: nat, wanted: nat, locked: set<Bufferevent>, first: nat)
      returns (moved: nat)
    requires bev.Valid() && bev.group == g && (g != null ==> g.Valid() && bev in g.members && first <= |g.members|)
    modifies bev`limit, bev`lastUpdated, bev`suspended, bev`backend, bev`refill
    modifies g, if g != null then g.Bevs() else {}
    ensures bev.Valid() && (g != null ==> g.Valid() && g.members == old(g.members))
    ensures g != null ==> g.cfg == old(g.cfg) && g.minShare == old(g.minShare) && g.lastUpdated == old(g.lastUpdated)
    ensures g != null ==> g.ticks == old(g.ticks) && g.refilled == old(g.refilled)
    ensures g == null ==> var u := Filled(old(bev.Look()), tick); var own := if u.cfg.Cfg? then u.limit.At(d) else MAX_EVER;
              if Running(old(bev.Look()), d)
              then moved == (if wanted < RlimMax(own, own) then wanted else RlimMax(own, own)) && bev.Look() == Used(u, d, moved)
              else moved == 0 && bev.Look() == old(bev.Look())
    ensures g != null ==>
              if Running(old(bev.Look()), d) && !old(g.suspended).At(d)
              then var max := Most(Polled(old(bev.Look()), false, d, tick), d, old(Share(g.limit.At(d), |g.members|, g.minShare)));
                && moved == (if wanted < max then wanted else max)
                && g.limit == old(g.limit).With(d, ToSigned(old(g.limit).At(d) - moved))
                && g.total == old(g.total).With(d, old(g.total).At(d) + moved) && g.suspended == old(g.suspended).With(d, g.limit.At(d) <= 0)
                && g.pending == After(old(g.pending), d, if g.limit.At(d) <= 0 then Hold else Keep, g.SomeLocked(locked))
              else moved == 0 && g.Same()
    ensures g != null ==> forall m :: m in g.members ==>
              m.Look() == Turned(old(m.Look()), m == bev, Running(old(bev.Look()), d), old(g.suspended).At(d), d, tick, moved, g.limit.At(d), m in locked)
    ensures g != null ==> (old(g.Bounded()) ==> g.Bounded() && g.total == old(g.total).With(d, old(g.total).At(d) + moved))
  {
    hide Group.Woken, Bufferevent.Refills, ToSigned, Used, Filled, Then, After, Quotient;
    if d !in bev.backend {
      return 0;
    }
    var max := GetRlimMax(bev, g, d, tick);
    if bev.suspended.At(d) != {} {
      return 0;
    }
    moved := if wanted < max then wanted else max;
    if g == null {
      bev.DecrementOwn(d, moved);
    } else {
      ShareLeaves(g.limit.At(d), |g.members|, g.minShare, moved);
      ToSignedIs(g.limit.At(d) - moved);
      g.Pay(bev, d, moved, locked, first);
      g.MemberValid(bev);
    }
  }

  /** One call of bufferevent_readcb or writecb: as much of `wanted` as the limits allow moves and is charged. */
  method Transfer(bev: Bufferevent, g: Group?, d: Dir, tick: nat, wanted: nat, locked: set<Bufferevent>, first: nat)
      returns (moved: nat)
    requires bev.Valid() && bev.group == g && (g != null ==> g.Valid() && bev in g.members && first <= |g.members|)
    modifies bev`limit, bev`lastUpdated, bev`suspended, bev`backend, bev`refill
    modifies g, if g != null then g.Bevs() else {}
    ensures bev.Valid() && (g != null ==> g.Valid() && g.members == old(g.members))
    ensures g != null ==> g.cfg == old(g.cfg) && g.minShare == old(g.minShare) && g.lastUpdated == old(g.lastUpdated)
    ensures g != null ==> g.ticks == old(g.ticks) && g.refilled == old(g.refilled)
    ensures g == null ==> var u := Filled(old(bev.Look()), tick); var own := if u.cfg.Cfg? then u.limit.At(d) else MAX_EVER;
              if Running(old(bev.Look()), d)
              then moved == (if wanted < RlimMax(own, own) then wanted else RlimMax(own, own)) && bev.Look() == Used(u, d, moved)
              else moved == 0 && bev.Look() == old(bev.Look())
    ensures g != null ==> forall i :: 0 <= i < |g.members| && g.members[i] == bev ==>
              (g.Look(), moved) == Served(old(g.Look()), g.members, i, d, tick, wanted, locked)
    ensures g != null ==> (old(g.Bounded()) ==> g.Bounded() && g.total == old(g.total).With(d, old(g.total).At(d) + moved))
  {
    hide Group.Valid, Bufferevent.Valid, Served, Turned, Running, Filled, Used, Polled, After, Most, Share, ToSigned, Group.Bounded;
    ghost var v := if g == null then NoView() else g.Look();
    if g != null {
      g.AllApart();
    }
    moved := TransferBytes(bev, g, d, tick, wanted, locked, first);
    if g != null {
      forall i | 0 <= i < |g.members| && g.members[i] == bev
        ensures (g.Look(), moved) == Served(v, g.members, i, d, tick, wanted, locked)
      {
        ServedIs(v, g.Look(), g.members, i, d, tick, wanted, locked, moved);
      }
    }
  }

  /** bufferevent_add_to_rate_limit_group; bev may come out of another group. */
  method AddToGroup(bev: Bufferevent, before: Group?, g: Group)
    requires bev.Valid() && bev.group == before && g.Valid() && (before != null ==> before.Valid() && bev in before.members)
    requires before == null ==> GroupBandwidth !in bev.suspended.read && GroupBandwidth !in bev.suspended.write
    modifies bev, g, before
    ensures bev.Valid() && bev.group == g && g.Valid() && bev in g.members
    ensures before != null && before != g ==> before.Valid() && before.members == Remove(old(before.members), bev)
    ensures g.members == if before == g then old(g.members) else old(g.members) + [bev]
    ensures before != g ==> forall d: Dir :: GroupBandwidth in bev.suspended.At(d) <==> g.suspended.At(d)
  {
    if before == g {
      return;
    }
    if before != null {
      before.RemoveMember(bev);
    }
    g.AddMember(bev);
  }

  lemma ShareLeaves(limit: int, n: nat, minShare: nat, bytes: nat)
    requires n > 0 && bytes <= Share(limit, n, minShare)
    ensures minShare >= 1 && limit > 0 ==> limit - bytes + minShare > 0
    ensures minShare == 0 ==> limit - bytes >= 0 || bytes == 0
  {
    if limit > 0 {
      DivAtMost(limit, n);
    }
  }

  lemma DivAtMost(a: nat, n: nat)
    requires n > 0
    ensures a / n <= a
  {
    DivLess(a, n, a + 1);
    Distribute(n - 1, 1, a + 1);
    assert (n - 1) * (a + 1) >= 0;
  }

  lemma Distribute(a: nat, b: nat, c: nat)
    ensures (a + b) * c == a * c + b * c
  {
  }

  /** The share set by bufferevent_rate_limit_group_set_min_share. */
  function SharePart(share: nat, rate: Both<nat>): (part: nat)
    ensures part <= share && part <= rate.read && part <= rate.write
    ensures part == share || part == rate.read || part == rate.write
  {
    Min(Min(share, rate.read), rate.write)
  }

  /** What can happen to a bufferevent: bytes are charged, its refill timer goes off, settings change. */
  datatype Act =
    | Use(d: Dir, bytes: nat)
    | Decrement(d: Dir, decr: int)
    | Fire
    | Refill(tick: nat)
    | Configure(cfg: Cfg, tick: nat)
    | Block(d: Dir, reasons: set<Reason>)
    | Unblock(d: Dir, reasons: set<Reason>)
    | TurnOn(ds: set<Dir>)
    | TurnOff(ds: set<Dir>)

  /** What it does. */
  ghost function Acted(v: View, act: Act): View
  {
    match act
    case Use(d, bytes) => Used(v, d, bytes)
    case Decrement(d, decr) => Decremented(v, d, decr)
    case Fire => v.(refill := Active)
    case Refill(tick) => Refilled(v, tick)
    case Configure(cfg, tick) => Configured(v, cfg, tick)
    case Block(d, reasons) => v.(suspended := v.suspended.With(d, v.suspended.At(d) + reasons))
    case Unblock(d, reasons) => v.(suspended := v.suspended.With(d, v.suspended.At(d) - reasons))
    case TurnOn(ds) => v.(enabled := v.enabled + ds)
    case TurnOff(ds) => v.(enabled := v.enabled - ds)
  }

  /** Only what is possible happens. */
  ghost function Happened(v: View, act: Act): View
  {
    if PossibleIn(v, act) then Acted(v, act) else v
  }

  ghost predicate PossibleIn(v: View, act: Act)
  {
    match act
    case Decrement(_, _) => v.cfg.Cfg?
    case Fire => v.refill == Scheduled
    case Refill(_) => v.refill == Active
    case Configure(cfg, _) => cfg.Cfg? ==> cfg.Ok()
    case Block(_, reasons) => reasons != {} && Bandwidth !in reasons
    case Unblock(_, reasons) => Bandwidth !in reasons
    case _ => true
  }

  ghost function AllActed(acts: seq<Act>): View
  {
    if acts == [] then View({}, Both({}, {}), NoCfg, Both(0, 0), 0, Idle)
    else Happened(AllActed(acts[..|acts| - 1]), acts[|acts| - 1])
  }

  /** A decrement needs a configuration, configurations are well formed, and only rate limiting suspends for bandwidth. */
  predicate Possible(bev: Bufferevent, act: Act)
    reads bev
  {
    match act
    case Use(_, _) => true
    case Decrement(_, _) => bev.cfg.Cfg?
    case Fire => bev.refill == Scheduled
    case Refill(_) => bev.refill == Active
    case Configure(cfg, _) => cfg.Cfg? ==> cfg.Ok()
    case Block(_, reasons) => reasons != {} && Bandwidth !in reasons
    case Unblock(_, reasons) => Bandwidth !in reasons
    case TurnOn(_) => true
    case TurnOff(_) => true
  }

  /** Only the group suspends and resumes for itself. */
  predicate NotGroup(act: Act)
  {
    match act
    case Block(_, reasons) => GroupBandwidth !in reasons
    case Unblock(_, reasons) => GroupBandwidth !in reasons
    case _ => true
  }

  method Perform(bev: Bufferevent, act: Act)
    requires bev.Valid() && Possible(bev, act)
    modifies bev`enabled, bev`suspended, bev`backend, bev`cfg, bev`limit, bev`lastUpdated, bev`refill
    ensures bev.Valid() && bev.Look() == Acted(old(bev.Look()), act)
    ensures NotGroup(act) ==> forall d: Dir :: GroupBandwidth in bev.suspended.At(d) <==> GroupBandwidth in old(bev.suspended).At(d)
  {
    match act
    case Use(d, bytes) => bev.DecrementOwn(d, bytes);
    case Decrement(d, decr) => bev.DecrementLimit(d, decr);
    case Fire => bev.RefillFires();
    case Refill(tick) => bev.RefillCallback(tick);
    case Configure(cfg, tick) => bev.SetRateLimit(cfg, tick);
    case Block(d, reasons) => bev.Suspend(d, reasons);
    case Unblock(d, reasons) => bev.Unsuspend(d, reasons);
    case TurnOn(ds) => bev.Enable(ds);
    case TurnOff(ds) => bev.Disable(ds);
  }

  /** A full bucket, one byte given back, and a tick: more may move than the maximum. */
  method CreditGrows(rate: nat, maximum: nat, tick: nat) returns (max: nat)
    requires CfgOk(rate, maximum) && maximum + 1 + rate <= SSIZE_MAX
    ensures max == maximum + 1 + rate
  {
    var bev := new Bufferevent();
    bev.SetRateLimit(Cfg(0, Both(maximum, maximum), Both(maximum, maximum)), tick);
    bev.SetRateLimit(Cfg(1, Both(rate, rate), Both(maximum, maximum)), tick);
    assert bev.limit.At(Read) == maximum;
    bev.DecrementLimit(Read, -1);
    ToSignedIs(maximum + 1);
    TicksAdd(bev.lastUpdated, 1);
    OverfullGrows(rate, maximum);
    max := GetRlimMax(bev, null, Read, (bev.lastUpdated + 1) % 0x1_0000_0000);
  }

  /** No wakeup is lost in any run: who waits for bandwidth has a refill coming, and the backend runs where nothing waits. */
  method RunOne(acts: seq<Act>) returns (bev: Bufferevent)
    ensures fresh(bev) && bev.Look() == AllActed(acts)
    ensures bev.refill == Idle <==> forall d: Dir :: Bandwidth !in bev.suspended.At(d)
    ensures forall d :: d in bev.backend <==> d in bev.enabled && bev.suspended.At(d) == {}
  {
    hide Possible, PossibleIn, Acted;
    bev := new Bufferevent();
    for i := 0 to |acts|
      invariant fresh(bev) && bev.Valid() && bev.Look() == AllActed(acts[..i])
    {
      assert acts[..i + 1][..i] == acts[..i];
      PossibleHere(bev, acts[i]);
      var possible := Possible(bev, acts[i]);
      if possible {
        Perform(bev, acts[i]);
      }
    }
    assert acts[..|acts|] == acts;
    BothDirections(bev);
  }

  lemma PossibleHere(bev: Bufferevent, act: Act)
    ensures Possible(bev, act) <==> PossibleIn(bev.Look(), act)
  {
  }

  lemma BothDirections(bev: Bufferevent)
    requires bev.Valid()
    ensures bev.refill == Idle <==> forall d: Dir :: Bandwidth !in bev.suspended.At(d)
  {
    assert bev.suspended.At(Read) == bev.suspended.read && bev.suspended.At(Write) == bev.suspended.write;
    if Bandwidth !in bev.suspended.read && Bandwidth !in bev.suspended.write {
      forall d: Dir ensures Bandwidth !in bev.suspended.At(d) {
        match d
        case Read =>
        case Write =>
      }
    }
  }

  /** What happens in a group: a tick of its refill timer, one of its members being ready to move bytes, or what else can happen to a member. */
  datatype Step =
    | Tick(tick: nat, locked: set<Bufferevent>, firstRead: nat, firstWrite: nat)
    | Ready(i: nat, d: Dir, wanted: nat, tick: nat, locked: set<Bufferevent>, first: nat)
    | Own(i: nat, act: Act)

  predicate StepOk(s: Step, n: nat)
  {
    match s
    case Tick(_, _, firstRead, firstWrite) => firstRead <= n && firstWrite <= n
    case Ready(i, _, _, _, _, first) => i < n && first <= n
    case Own(i, act) => i < n && !act.Use? && NotGroup(act)
  }

  /** What a step does to the group and its members. */
  ghost function Played(g: GroupView, ms: seq<Bufferevent>, s: Step): (r: GroupView)
    requires g.cfg.Cfg? && |g.members| == |ms| && StepOk(s, |ms|)
    ensures |r.members| == |ms| && r.cfg == g.cfg
  {
    match s
    case Tick(tick, locked, _, _) => Ticked(g, ms, tick, locked)
    case Ready(i, d, wanted, tick, locked, _) => Served(g, ms, i, d, tick, wanted, locked).0
    case Own(i, act) => g.(members := g.members[i := Happened(g.members[i], act)])
  }

  ghost function AllPlayed(g: GroupView, ms: seq<Bufferevent>, steps: seq<Step>): (r: GroupView)
    requires g.cfg.Cfg? && |g.members| == |ms| && forall s :: s in steps ==> StepOk(s, |ms|)
    ensures |r.members| == |ms| && r.cfg == g.cfg
  {
    if steps == [] then g else Played(AllPlayed(g, ms, steps[..|steps| - 1]), ms, steps[|steps| - 1])
  }

  /** What the tick does to the buckets, the flags and each member is what Ticked says. */
  lemma TickedIs(g: GroupView, h: GroupView, ms: seq<Bufferevent>, tick: nat, locked: set<Bufferevent>)
    requires g.cfg.Cfg? && |g.members| == |h.members| == |ms| && (forall d: Dir :: g.pending.At(d) ==> !g.suspended.At(d))
    requires var t := Topped(g, tick);
             && h == t.(suspended := h.suspended, pending := h.pending, members := h.members)
             && (forall d :: h.suspended.At(d) <==> g.suspended.At(d) && t.limit.At(d) < g.minShare)
             && (forall d :: h.pending.At(d) <==> if Resuming(t, d) then AnyIn(ms, locked) else g.pending.At(d))
             && forall j :: 0 <= j < |ms| ==>
                  h.members[j] == g.members[j].(suspended :=
                    Both(Next(g.members[j].suspended.read, if Resuming(t, Read) then Free else Keep, ms[j] in locked),
                         Next(g.members[j].suspended.write, if Resuming(t, Write) then Free else Keep, ms[j] in locked)))
    ensures h == Ticked(g, ms, tick, locked)
  {
    hide Topped, Next;
    var t := Topped(g, tick);
    var r := Freed(t, ms, Read, locked);
    var w := Freed(r, ms, Write, locked);
    assert h.suspended.At(Read) == w.suspended.At(Read) && h.suspended.At(Write) == w.suspended.At(Write);
    assert h.pending.At(Read) == w.pending.At(Read) && h.pending.At(Write) == w.pending.At(Write);
    forall j | 0 <= j < |ms| ensures h.members[j] == w.members[j] {
      KeepsAll(g.members[j].suspended.read, ms[j] in locked);
      KeepsAll(g.members[j].suspended.write, ms[j] in locked);
    }
  }

  lemma KeepsAll(reasons: set<Reason>, isLocked: bool)
    ensures Next(reasons, Keep, isLocked) == reasons
  {
  }

  ghost predicate Resuming(t: GroupView, d: Dir)
  {
    t.pending.At(d) || (t.suspended.At(d) && t.limit.At(d) >= t.minShare)
  }

  /** What happens to a member leaves the group as it is. */
  method MemberActs(g: Group, bev: Bufferevent, act: Act)
    requires g.Valid() && bev in g.members && !act.Use? && NotGroup(act)
    modifies g.Bevs()
    ensures g.Valid() && bev.Look() == Happened(old(bev.Look()), act)
    ensures forall m :: m in g.members && m != bev ==> m.Look() == old(m.Look())
  {
    hide Group.Woken, Group.Limits, Possible, PossibleIn, Acted;
    g.MemberValid(bev);
    PossibleHere(bev, act);
    var possible := Possible(bev, act);
    if possible {
      label A:
      Perform(bev, act);
      assert bev.suspended.At(Read) == bev.suspended.read && bev.suspended.At(Write) == bev.suspended.write;
      assert old@A(bev.suspended).At(Read) == old@A(bev.suspended.read);
      assert old@A(bev.suspended).At(Write) == old@A(bev.suspended.write);
      g.KeptMember@A(bev);
    }
  }

  /** The ticks of a run do not go back, and no gap is longer than the counter can tell. */
  ghost predicate Forward(last: nat, steps: seq<Step>)
  {
    steps == [] ||
    (var n := |steps| - 1;
     Forward(last, steps[..n]) && (steps[n].Tick? ==> LastTick(last, steps[..n]) <= steps[n].tick <= LastTick(last, steps[..n]) + INT_MAX))
  }

  ghost function LastTick(last: nat, steps: seq<Step>): nat
  {
    if steps == [] then last
    else if steps[|steps| - 1].Tick? then steps[|steps| - 1].tick
    else LastTick(last, steps[..|steps| - 1])
  }

  /** One step of a run. */
  method PlayStep(g: Group, s: Step)
    requires g.Valid() && g.Bounded() && StepOk(s, |g.members|)
    modifies g, g.Bevs()
    ensures g.Valid() && g.Bounded() && g.members == old(g.members) && g.cfg == old(g.cfg) && g.minShare == old(g.minShare)
    ensures var n := if s.Tick? then TicksSince(old(g.lastUpdated), s.tick) else 0;
            && g.ticks == old(g.ticks) + n && g.lastUpdated == (if n > 0 then s.tick else old(g.lastUpdated))
            && forall d :: g.refilled.At(d) <= old(g.refilled).At(d) + n * g.cfg.rate.At(d)
    ensures old(g.cfg).Cfg? && |old(g.Look()).members| == |old(g.members)| && g.Look() == Played(old(g.Look()), old(g.members), s)
  {
    hide Group.Woken, Group.Limits, Group.Guarded, Group.BoundedIn, Served, Ticked, Happened;
    HasCfg(g);
    ghost var v := g.Look();
    match s
    case Tick(tick, locked, firstRead, firstWrite) =>
      g.RefillCallback(tick, locked, firstRead, firstWrite);
      TickShows(v, g, tick, locked);
    case Ready(m, d, wanted, tick, locked, first) =>
      assert g.members[m] in g.members;
      g.MemberValid(g.members[m]);
      var _ := Transfer(g.members[m], g, d, tick, wanted, locked, first);
    case Own(m, act) =>
      g.AllApart();
      MemberActs(g, g.members[m], act);
      ActShows(v, g, m, act);
  }

  lemma HasCfg(g: Group)
    requires g.Limits()
    ensures g.cfg.Cfg? && forall d: Dir :: g.pending.At(d) ==> !g.suspended.At(d)
  {
  }

  lemma TickShows(v: GroupView, g: Group, tick: nat, locked: set<Bufferevent>)
    requires v.cfg.Cfg? && |v.members| == |g.members| && (forall d: Dir :: v.pending.At(d) ==> !v.suspended.At(d))
    requires g.cfg == v.cfg && g.minShare == v.minShare && g.total == v.total
    requires var n := TicksSince(v.lastUpdated, tick);
             && g.lastUpdated == (if n > 0 then tick else v.lastUpdated)
             && forall d :: g.limit.At(d) == UpdateLimit(v.limit.At(d), g.cfg.rate.At(d), g.cfg.maximum.At(d), n)
    requires forall d :: g.suspended.At(d) <==> v.suspended.At(d) && g.limit.At(d) < g.minShare
    requires forall d :: g.pending.At(d) <==> if g.Resumes(d, v.pending, v.suspended) then g.SomeLocked(locked) else v.pending.At(d)
    requires forall j :: 0 <= j < |g.members| ==>
               g.members[j].Look() == v.members[j].(suspended :=
                 Both(Next(v.members[j].suspended.read, if g.Resumes(Read, v.pending, v.suspended) then Free else Keep, g.members[j] in locked),
                      Next(v.members[j].suspended.write, if g.Resumes(Write, v.pending, v.suspended) then Free else Keep, g.members[j] in locked)))
    ensures g.Look() == Ticked(v, g.members, tick, locked)
  {
    hide UpdateLimit, Next, Ticked;
    var t := Topped(v, tick);
    assert g.limit.At(Read) == t.limit.At(Read) && g.limit.At(Write) == t.limit.At(Write);
    TickedIs(v, g.Look(), g.members, tick, locked);
  }

  lemma ActShows(v: GroupView, g: Group, i: nat, act: Act)
    requires |v.members| == |g.members| && i < |g.members| && Distinct(g.members)
    requires g.Look() == v.(members := g.Look().members) && g.members[i].Look() == Happened(v.members[i], act)
    requires forall j :: 0 <= j < |g.members| && g.members[j] != g.members[i] ==> g.members[j].Look() == v.members[j]
    ensures g.Look() == v.(members := v.members[i := Happened(v.members[i], act)])
  {
    hide Happened;
    forall j | 0 <= j < |g.members| && g.members[j] == g.members[i] ensures j == i {
      OnlyThere(g.members, i, j);
    }
  }

  /**
   * Over every run, a group moves less than its maximum, what the ticks so far are worth and min_share; where the ticks
   * do not go back, that is the time from the last refill before the run to the last one in it.
   */
  method Run(g: Group, steps: seq<Step>)
    requires g.Valid() && g.Bounded() && forall s :: s in steps ==> StepOk(s, |g.members|)
    modifies g, g.Bevs()
    ensures g.Valid() && g.Bounded() && g.cfg == old(g.cfg) && g.minShare == old(g.minShare)
    ensures forall d :: g.total.At(d) - old(g.total).At(d) < g.cfg.maximum.At(d) + (g.ticks - old(g.ticks)) * g.cfg.rate.At(d) + g.minShare
    ensures old(g.cfg).Cfg? && |old(g.Look()).members| == |old(g.members)| && g.Look() == AllPlayed(old(g.Look()), old(g.members), steps)
    ensures Forward(old(g.lastUpdated), steps) ==>
              var last := LastTick(old(g.lastUpdated), steps);
              && g.lastUpdated == last && g.ticks - old(g.ticks) == last - old(g.lastUpdated)
              && forall d :: g.total.At(d) - old(g.total).At(d)
                             < g.cfg.maximum.At(d) + (last - old(g.lastUpdated)) * g.cfg.rate.At(d) + g.minShare
  {
    hide Group.Woken, Group.Limits, Played;
    HasCfg(g);
    for i := 0 to |steps|
      invariant g.Valid() && g.Bounded() && g.members == old(g.members) && g.cfg == old(g.cfg) && g.minShare == old(g.minShare)
      invariant g.ticks >= old(g.ticks) && old(g.cfg).Cfg? && |old(g.Look()).members| == |old(g.members)|
      invariant g.Look() == AllPlayed(old(g.Look()), old(g.members), steps[..i])
      invariant forall d :: g.refilled.At(d) - old(g.refilled).At(d) <= (g.ticks - old(g.ticks)) * g.cfg.rate.At(d)
      invariant Forward(old(g.lastUpdated), steps[..i]) ==>
                  var last := LastTick(old(g.lastUpdated), steps[..i]);
                  g.lastUpdated == last && g.ticks - old(g.ticks) == last - old(g.lastUpdated)
    {
      assert steps[i] in steps && steps[..i + 1][..i] == steps[..i];
      ghost var before, refilled := g.ticks, g.refilled;
      PlayStep(g, steps[i]);
      Distribute(before - old(g.ticks), g.ticks - before, g.cfg.rate.read);
      Distribute(before - old(g.ticks), g.ticks - before, g.cfg.rate.write);
    }
    assert steps[..|steps|] == steps;
    forall d
      ensures g.total.At(d) - old(g.total).At(d) < g.cfg.maximum.At(d) + (g.ticks - old(g.ticks)) * g.cfg.rate.At(d) + g.minShare
    {
      match d
      case Read =>
      case Write =>
    }
  }
}
