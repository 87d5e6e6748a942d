/** Runs of an evdns_base: no handle is lost, and none is called back twice. */
module DnsRuns {
  import opened Wrappers
  import opened TailQueues
  import opened DnsRequests

  /** What can happen: calls of the user, what arrives, timeouts, and the deferred callbacks. */
  datatype Op =
    | Ask(domains: nat, manyDots: bool, ok: bool)
    | GoodReply(r: Request)
    | BadReply(r: Request, reply: Reply, isPtr: bool, ok: bool)
    | Timeout(r: Request)
    | Ready(s: Server)
    | Packet(s: Server)
    | CancelOf(h: Handle)
    | Resize(n: int)
    | ProbeServer(s: Server)
    | RunNext(success: bool)

  /** A handle still has its request, or its callback is scheduled, or that has run: one of the three. */
  ghost predicate Accounted(base: EvdnsBase, ran: seq<Handle>)
    reads base
  {
    && Distinct(ran) && (forall h :: h in ran <==> h in base.done)
    && Distinct(Owners(base.scheduled))
    && (forall h :: h in base.created ==>
          if h in base.current then h !in Owners(base.scheduled) && h !in ran
          else (h in ran <==> h !in Owners(base.scheduled)))
  }

  /** Request r is in flight, for handle h. */
  ghost predicate Flies(b: Ledger, h: Handle, r: Request)
  {
    h in b.current && b.current[h] == r && r !in b.waiting
  }

  ghost predicate InFlight(b: Ledger, r: Request)
  {
    exists h :: Flies(b, h, r)
  }

  /** What one of them does to handles, requests and callbacks; a reply or timeout for a request not in flight finds nothing to do. */
  ghost predicate Next(op: Op, a: Ledger, b: Ledger)
  {
    match op
    case Ask(domains, manyDots, ok) => if ok then Opened(a, b, FirstSearch(domains, manyDots)) else b == a
    case GoodReply(r) => if InFlight(a, r) then Answered(a, b, r) else b == a
    case BadReply(r, reply, isPtr, ok) => if InFlight(a, r) && reply != Answer then Refused(a, b, r, reply, isPtr, ok) else b == a
    case Timeout(r) => b == a || (InFlight(a, r) && GaveUp(a, b, r))
    case Ready(s) => b == a
    case Packet(s) => b == a
    case CancelOf(h) => b == if h in a.current && h !in a.probes then Closed(a, h, true) else a
    case Resize(n) => b == a.(maxInflight := if n < 1 then 1 else n)
    case ProbeServer(s) => b == a || Probed(a, b)
    case RunNext(success) =>
      b == if a.scheduled == [] then a else a.(scheduled := a.scheduled[1..], done := a.done + {a.scheduled[0].handle})
  }

  ghost predicate Opened(a: Ledger, b: Ledger, first: (Question, Search))
  {
    exists h, q :: h !in a.created && Is(b, Asked(a, h, q, first))
  }

  ghost predicate Is(b: Ledger, c: Ledger)
  {
    b == c
  }

  ghost predicate Probed(a: Ledger, b: Ledger)
  {
    exists h, q :: h !in a.created && Is(b, Probing(a, h, q))
  }

  ghost predicate Answered(a: Ledger, b: Ledger, r: Request)
  {
    exists h, rival :: Flies(a, h, r) && rival != Some(h) && Is(b, Replied(a, h, rival))
  }

  ghost predicate GaveUp(a: Ledger, b: Ledger, r: Request)
  {
    exists h :: Flies(a, h, r) && b == Closed(a, h, false)
  }

  /** Another server gets the request, or the next name of the search goes out, or the failure is passed up. */
  ghost predicate Refused(a: Ledger, b: Ledger, r: Request, reply: Reply, isPtr: bool, ok: bool)
  {
    (reply == Refusal && b == a) || exists h, rival :: Flies(a, h, r) && Failing(a, b, h, Judged(a, reply, rival), isPtr, ok)
  }

  ghost predicate Failing(a: Ledger, b: Ledger, h: Handle, c: Ledger, isPtr: bool, ok: bool)
  {
    && h in c.current && SearchOf(c.search, h) == SearchOf(a.search, h)
    && (if !isPtr && ok && NextQuestion(SearchOf(c.search, h)).Some? then exists q :: Is(b, AskedNext(c, h, q))
        else b == Closed(c, h, false))
  }

  /** Where no request waits with room for it, none does afterwards, but for one that is the next name of a search. */
  lemma StaysBusy(op: Op, a: Ledger, b: Ledger)
    requires Busy(a) && Next(op, a, b) && !op.Resize?
    ensures Busy(b) || (op.BadReply? && |b.waiting| == 1 && b.inflight + 1 == b.maxInflight)
  {
  }

  /** All of w is in v, but perhaps for the last. */
  ghost predicate Behind(v: seq<Request>, w: seq<Request>)
  {
    forall i :: 0 <= i < |w| - 1 ==> w[i] in v
  }

  /** Requests wait in line: at most one comes to wait, and it waits behind those that did. */
  lemma NewcomersLast(op: Op, a: Ledger, b: Ledger)
    requires Next(op, a, b)
    ensures Behind(a.waiting, b.waiting)
  {
    hide Finished, Called;
    match op
    case GoodReply(r) =>
      if InFlight(a, r) {
        var h, rival :| Flies(a, h, r) && rival != Some(h) && Is(b, Replied(a, h, rival));
        CalledWaits(a, h, false);
        CancelledWaits(Called(a, h, false), rival);
        OthersStay(Called(a, h, false), rival, h);
        FinishedWaits(Cancelled(Called(a, h, false), rival), h);
      }
    case BadReply(r, reply, isPtr, ok) =>
      if InFlight(a, r) && reply != Answer && b != a {
        var h, rival :| Flies(a, h, r) && Failing(a, b, h, Judged(a, reply, rival), isPtr, ok);
        var c := Judged(a, reply, rival);
        CancelledWaits(a, rival);
        CalledWaits(c, h, false);
        FinishedWaits(Called(c, h, false), h);
        DroppedWaits(c, h);
      }
    case Timeout(r) =>
      if b != a {
        var h :| Flies(a, h, r) && b == Closed(a, h, false);
        CalledWaits(a, h, false);
        FinishedWaits(Called(a, h, false), h);
      }
    case CancelOf(h) =>
      if h in a.current {
        CalledWaits(a, h, true);
        FinishedWaits(Called(a, h, true), h);
      }
    case _ =>
  }

  lemma CalledWaits(c: Ledger, h: Handle, cancelled: bool)
    ensures Called(c, h, cancelled).waiting == c.waiting && Called(c, h, cancelled).current == c.current
  {
  }

  lemma DroppedWaits(c: Ledger, h: Handle)
    requires h in c.current
    ensures forall q :: q in Dropped(c, h).waiting ==> q in c.waiting
  {
    RemoveFewer(c.waiting, c.current[h]);
  }

  lemma FinishedWaits(c: Ledger, h: Handle)
    requires h in c.current
    ensures forall q :: q in Finished(c, h).waiting ==> q in c.waiting
  {
    hide Dropped;
    DroppedWaits(c, h);
  }

  lemma CancelledWaits(c: Ledger, h: Option<Handle>)
    ensures forall q :: q in Cancelled(c, h).waiting ==> q in c.waiting
  {
    hide Finished, Called;
    if h.Some? && h.value in c.current {
      CalledWaits(c, h.value, true);
      FinishedWaits(Called(c, h.value, true), h.value);
    }
  }

  /** One of them. */
  method Do(base: EvdnsBase, op: Op) returns (ran: Option<Handle>)
    requires base.Quiet()
    modifies base
    ensures base.Quiet() && base.done == old(base.done) + (if ran.Some? then {ran.value} else {})
    ensures ran.Some? <==> op.RunNext? && old(base.scheduled) != []
    ensures ran.Some? ==> ran.value == old(base.scheduled)[0].handle && ran.value !in old(base.done)
    ensures Next(op, old(base.Book()), base.Book())
  {
    hide EvdnsBase.Quiet, Judged, Replied, Closed, Asked, Probing, AskedNext;
    ran := None;
    AllFly(base);
    ghost var a := base.Book();
    match op
    case Ask(domains, manyDots, ok) =>
      var h := base.Resolve(domains, manyDots, ok);
      assert ok ==> Is(base.Book(), Asked(a, h.value, base.current[h.value], FirstSearch(domains, manyDots)));
    case GoodReply(r) =>
      if r in base.ns {
        ghost var h, rival := base.owner[r], base.RivalOf(base.ns[r], base.owner[r]);
        base.ReplyOk(r);
        assert Flies(a, h, r) && Is(base.Book(), Replied(a, h, rival));
      }
    case BadReply(r, reply, isPtr, ok) =>
      if r in base.ns && reply != Answer {
        ghost var h, c := base.owner[r], Judged(a, reply, base.RivalOf(base.ns[r], base.owner[r]));
        var again, issued, _ := base.ReplyError(r, reply, isPtr, ok);
        assert issued ==> Is(base.Book(), AskedNext(c, h, base.current[h]));
        assert again || (Flies(a, h, r) && Failing(a, base.Book(), h, c, isPtr, ok));
      }
    case Timeout(r) =>
      if r in base.ns {
        ghost var h := base.owner[r];
        var _, _, _ := base.TimeoutCallback(r);
        assert base.Book() == a || (Flies(a, h, r) && base.Book() == Closed(a, h, false));
      }
    case Ready(s) => base.ServerReady(s);
    case Packet(s) => base.PacketFrom(s);
    case CancelOf(h) => if h in base.handles && h !in base.probeFor { base.CancelRequest(h); }
    case Resize(n) => base.SetMaxRequestsInflight(n);
    case ProbeServer(s) =>
      if s in base.servers {
        base.SendProbe(s);
        assert Is(base.Book(), Probing(a, base.probe[s], base.current[base.probe[s]]));
      }
    case RunNext(success) =>
      if base.scheduled != [] {
        var h := base.RunCallback(success);
        ran := Some(h);
      }
  }

  lemma AllFly(base: EvdnsBase)
    requires base.Quiet()
    ensures forall r :: r in base.ns ==> r in base.owner && Flies(base.Book(), base.owner[r], r)
    ensures forall r :: InFlight(base.Book(), r) ==> r in base.ns
    ensures forall h :: h in base.current ==> h in base.handles
  {
  }

  lemma AllAccounted(base: EvdnsBase, ran: seq<Handle>)
    requires base.Quiet() && Distinct(ran) && forall h :: h in ran <==> h in base.done
    ensures Accounted(base, ran)
  {
    forall h | h in base.created
      ensures if h in base.current then h !in Owners(base.scheduled) && h !in ran else (h in ran <==> h !in Owners(base.scheduled))
    {
      base.OneCallback(h);
    }
  }

  /** Over every run, each handle that was ever given out is called back once at most, and none is lost. */
  method Run(servers: seq<Server>, maxInflight: nat, ops: seq<Op>) returns (base: EvdnsBase, ran: seq<Handle>, ghost books: seq<Ledger>)
    requires servers != [] && Distinct(servers) && maxInflight > 0
    ensures fresh(base) && base.Quiet() && Accounted(base, ran)
    ensures |books| == |ops| + 1 && books[0] == Ledger({}, {}, {}, map[], [], 0, maxInflight, [], map[], map[]) && books[|ops|] == base.Book()
    ensures forall i :: 0 <= i < |ops| ==> Next(ops[i], books[i], books[i + 1])
    ensures (forall op :: op in ops ==> !op.BadReply? && !op.Resize?) ==> forall b :: b in books ==> Busy(b)
  {
    hide EvdnsBase.Quiet, Next, Busy;
    base := new EvdnsBase(servers, maxInflight);
    ran, books := [], [base.Book()];
    NothingDone(base);
    for i := 0 to |ops|
      invariant base.Quiet() && Distinct(ran) && forall h :: h in ran <==> h in base.done
      invariant |books| == i + 1 && books[0] == Ledger({}, {}, {}, map[], [], 0, maxInflight, [], map[], map[]) && books[i] == base.Book()
      invariant forall k :: 0 <= k < i ==> Next(ops[k], books[k], books[k + 1])
      invariant (forall op :: op in ops ==> !op.BadReply? && !op.Resize?) ==> forall b :: b in books ==> Busy(b)
    {
      var r := Do(base, ops[i]);
      if r.Some? {
        AppendDistinct(ran, r.value);
        ran := ran + [r.value];
      }
      if forall op :: op in ops ==> !op.BadReply? && !op.Resize? {
        assert ops[i] in ops && books[i] in books;
        StaysBusy(ops[i], books[i], base.Book());
      }
      books := books + [base.Book()];
    }
    AllAccounted(base, ran);
  }

  lemma NothingDone(base: EvdnsBase)
    requires base.Quiet() && base.Book() == Ledger({}, {}, {}, map[], [], 0, base.maxInflight, [], map[], map[])
    ensures base.done == {} && Busy(base.Book())
  {
  }

  /**
   * With a maximum of one, the first name of a search fails: the next one waits, with nothing in flight. No reply and no
   * timeout can come any more, so it is not sent before the user asks for something else.
   */
  method SearchStalls(server: Server) returns (base: EvdnsBase)
    ensures fresh(base) && base.Quiet() && base.inflight == 0 && |base.waiting| == 1 && base.ns == map[] && base.scheduled == []
  {
    hide EvdnsBase.Quiet;
    base := new EvdnsBase([server], 1);
    var h := base.Resolve(1, false, true);
    var r := base.current[h.value];
    FliesThen(base, h.value);
    var again, issued, mid := base.ReplyError(r, OtherError, false, true);
    NothingFlies(base);
  }

  lemma FliesThen(base: EvdnsBase, h: Handle)
    requires base.Quiet() && h in base.current && base.waiting == []
    ensures base.current[h] in base.ns && base.owner[base.current[h]] == h
  {
  }

  lemma NothingFlies(base: EvdnsBase)
    requires base.Quiet() && base.inflight == 0
    ensures base.ns == map[]
  {
    assert forall r :: r in base.ns ==> r in base.heads[base.Bucket(r)];
    TotalZero(base.heads);
    assert forall r :: r !in base.ns;
  }
}
