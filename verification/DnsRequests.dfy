/** The requests of an evdns_base: where each one waits, and the one callback that each handle gets. */
module DnsRequests {
  import opened Wrappers
  import opened TailQueues
  import opened Rings

  type Request = nat
  type Handle = nat
  type Server = nat

  /** What a request asks for: the name with a domain behind it, by its place in the search list, or the name as it is. */
  datatype Question = WithDomain(index: int) | Raw

  /** search_state and search_index of a handle; raw: the name has fewer than ndots dots. */
  datatype Search = NoSearch | Searching(index: int, domains: nat, raw: bool)

  /** What search_try_next asks for next, if anything. */
  function NextQuestion(s: Search): Option<Question>
  {
    if s.NoSearch? then None
    else if s.index + 1 < s.domains then Some(WithDomain(s.index + 1))
    else if s.raw then Some(Raw)
    else None
  }

  /** The search after it has been asked: with the name as it is, it ends. */
  function NextSearch(s: Search): Search
    requires s.Searching?
  {
    if s.index + 1 < s.domains then s.(index := s.index + 1) else NoSearch
  }

  /** Where search_request_new starts: with the name as it is if that has enough dots, else with the first domain. */
  function FirstSearch(domains: nat, manyDots: bool): (Question, Search)
  {
    if domains == 0 then (Raw, NoSearch)
    else if manyDots then (Raw, Searching(-1, domains, false))
    else (WithDomain(0), Searching(0, domains, true))
  }

  /** All that a search still asks for, if every name fails. */
  function StillAsked(s: Search): seq<Question>
    decreases if s.NoSearch? then 0 else if s.index + 1 < s.domains then s.domains - s.index else 1
  {
    match NextQuestion(s)
    case None => []
    case Some(q) => [q] + StillAsked(NextSearch(s))
  }

  lemma {:induction false} StillAskedIs(s: Search)
    requires s.Searching? && s.index + 1 <= s.domains
    ensures var n := s.domains - (s.index + 1);
            && |StillAsked(s)| == n + (if s.raw then 1 else 0)
            && (forall i :: 0 <= i < n ==> StillAsked(s)[i] == WithDomain(s.index + 1 + i))
            && (s.raw ==> StillAsked(s)[n] == Raw)
    decreases s.domains - s.index
  {
    if s.index + 1 < s.domains {
      StillAskedIs(NextSearch(s));
    }
  }

  /** A search asks for the name as it is and for the name with each domain, each once, and the domains in their order. */
  lemma EachNameOnce(domains: nat, manyDots: bool)
    ensures var (first, search) := FirstSearch(domains, manyDots); var all := [first] + StillAsked(search);
            && |all| == domains + 1 && all[if manyDots || domains == 0 then 0 else domains] == Raw
            && forall k :: 0 <= k < domains ==> all[if manyDots then k + 1 else k] == WithDomain(k)
  {
    var (first, search) := FirstSearch(domains, manyDots);
    if domains > 0 {
      StillAskedIs(search);
    }
  }

  /** tx_count, reissue_count, transmit_me, and whether timeout_event is pending. */
  datatype Info = Info(txCount: nat, reissues: nat, transmitMe: bool, timing: bool)

  function InfoIn(info: map<Request, Info>, r: Request): Info
  {
    if r in info then info[r] else FreshInfo
  }

  const FreshInfo := Info(0, 0, false, false)

  function MarkedInfo(i: Info): Info
  {
    i.(transmitMe := true)
  }

  function SentInfo(i: Info): Info
  {
    i.(txCount := i.txCount + 1, transmitMe := false, timing := true)
  }

  /** Of a transmission: the server is choked; its socket takes no more; the packet has gone out; the socket has failed. */
  datatype Sending = Choked | Blocked | Sent | Failed

  /** The requests and servers as transmissions see and change them. */
  datatype Traffic = Traffic(
    info: map<Request, Info>,
    choked: set<Server>,
    up: set<Server>,
    ns: map<Request, Server>,
    servers: seq<Server>
  )

  /** The server that nameserver_pick takes, and the circular list of servers after it. */
  ghost predicate Picked(was: seq<Server>, up: set<Server>, s: Server, now: seq<Server>)
  {
    if up == {} then was != [] && now == was[1..] + [was[0]] && s == now[0]
    else exists k :: PickedAt(was, up, k, s, now)
  }

  /** The first server that is up is at place k. */
  ghost predicate PickedAt(was: seq<Server>, up: set<Server>, k: int, s: Server, now: seq<Server>)
  {
    && 0 <= k < |was| && s == was[k] && s in up && (forall i :: 0 <= i < k ==> was[i] !in up)
    && now == was[k + 1..] + was[..k + 1]
  }

  ghost function Last<T>(l: seq<T>): T
    requires l != []
  {
    l[|l| - 1]
  }

  /** The servers that one pick after the other takes. */
  ghost predicate InTurn(was: seq<Server>, up: set<Server>, picks: seq<Server>, now: seq<Server>)
    decreases |picks|
  {
    if picks == [] then now == was
    else exists mid :: InTurn(was, up, picks[..|picks| - 1], mid) && Picked(mid, up, Last(picks), now)
  }

  /** The servers that are up, from server_head on. */
  ghost function GoodOnes(servers: seq<Server>, up: set<Server>): seq<Server>
  {
    if servers == [] then []
    else (if servers[0] in up then [servers[0]] else []) + GoodOnes(servers[1..], up)
  }

  lemma {:induction false} GoodOnesJoin(a: seq<Server>, b: seq<Server>, up: set<Server>)
    ensures GoodOnes(a + b, up) == GoodOnes(a, up) + GoodOnes(b, up)
  {
    if a == [] {
      assert a + b == b;
    } else {
      GoodOnesJoin(a[1..], b, up);
      assert (a + b)[1..] == a[1..] + b;
    }
  }

  lemma {:induction false} NoGoodOnes(a: seq<Server>, up: set<Server>)
    requires forall i :: 0 <= i < |a| ==> a[i] !in up
    ensures GoodOnes(a, up) == []
  {
    if a != [] {
      NoGoodOnes(a[1..], up);
    }
  }

  /** A pick takes the first server that is up, and that goes to the end of them. */
  lemma PickedIs(was: seq<Server>, up: set<Server>, s: Server, now: seq<Server>)
    requires up != {} && Picked(was, up, s, now)
    ensures var g := GoodOnes(was, up); g != [] && s == g[0] && GoodOnes(now, up) == g[1..] + [s]
  {
    var k :| PickedAt(was, up, k, s, now);
    var a, b := was[..k], was[k + 1..];
    assert was == (a + [s]) + b && was[..k + 1] == a + [s];
    NoGoodOnes(a, up);
    GoodOnesJoin(a, [s], up);
    assert GoodOnes([s], up) == [s] by { assert [s][1..] == []; }
    GoodOnesJoin(a + [s], b, up);
    GoodOnesJoin(b, a + [s], up);
  }

  /** The servers that are up are taken in turn. */
  lemma {:induction false} InTurnIs(was: seq<Server>, up: set<Server>, picks: seq<Server>, now: seq<Server>)
    requires up != {} && InTurn(was, up, picks, now)
    ensures var g := GoodOnes(was, up);
            && |GoodOnes(now, up)| == |g| && (picks != [] ==> g != [])
            && (forall i :: 0 <= i < |picks| ==> picks[i] == g[i % |g|])
            && (forall i :: 0 <= i < |g| ==> GoodOnes(now, up)[i] == g[(i + |picks|) % |g|])
    decreases |picks|
  {
    hide GoodOnes, Picked;
    if picks != [] {
      var n := |picks| - 1;
      var mid :| InTurn(was, up, picks[..n], mid) && Picked(mid, up, picks[n], now);
      InTurnIs(was, up, picks[..n], mid);
      PickedIs(mid, up, picks[n], now);
      var g, m := GoodOnes(was, up), GoodOnes(mid, up);
      assert picks[n] == m[0] == g[n % |g|];
      forall i | 0 <= i < |picks| ensures picks[i] == g[i % |g|] {
        if i < n {
          assert picks[..n][i] == picks[i];
        }
      }
      forall i | 0 <= i < |g| ensures GoodOnes(now, up)[i] == g[(i + |picks|) % |g|] {
        if i + 1 < |g| {
          assert GoodOnes(now, up)[i] == m[i + 1] && i + |picks| == (i + 1) + n;
        } else {
          Around(n, |g|);
        }
      }
    }
  }

  lemma Around(n: nat, m: nat)
    requires m > 0
    ensures (m - 1 + (n + 1)) % m == n % m
  {
    var q, t := n / m, n % m;
    var x := m - 1 + (n + 1);
    assert n == q * m + t && x == (q + 1) * m + t;
    var d := x / m - (q + 1);
    assert x == x / m * m + x % m;
    assert d * m == t - x % m;
    AtLeastOnce(d, m);
  }

  lemma AtLeastOnce(d: int, m: nat)
    ensures (d >= 1 ==> d * m >= m) && (d <= -1 ==> d * m + m <= 0)
  {
    if d >= 1 {
      assert (d - 1) * m >= 0;
    } else if d <= -1 {
      assert (-1 - d) * m >= 0;
    }
  }

  lemma {:induction false} InTurnUp(was: seq<Server>, up: set<Server>, picks: seq<Server>, now: seq<Server>)
    requires up != {} && InTurn(was, up, picks, now)
    ensures forall i :: 0 <= i < |picks| ==> picks[i] in up
    decreases |picks|
  {
    if picks != [] {
      var n := |picks| - 1;
      var mid :| InTurn(was, up, picks[..n], mid) && Picked(mid, up, picks[n], now);
      InTurnUp(was, up, picks[..n], mid);
      assert forall i :: 0 <= i < n ==> picks[..n][i] == picks[i];
    }
  }

  /** All members of a row of lists, in order. */
  ghost function Flat(ls: seq<seq<Request>>): seq<Request>
  {
    if ls == [] then [] else Flat(ls[..|ls| - 1]) + ls[|ls| - 1]
  }

  lemma {:induction false} FlatHas(ls: seq<seq<Request>>, r: Request)
    ensures r in Flat(ls) <==> exists i :: 0 <= i < |ls| && r in ls[i]
  {
    if ls != [] {
      var n := |ls| - 1;
      FlatHas(ls[..n], r);
      assert forall i :: 0 <= i < n ==> ls[..n][i] == ls[i];
    }
  }

  /** Those of the requests that have server s and have not gone out to it. */
  ghost function Unsent(reqs: seq<Request>, t: Traffic, s: Server): seq<Request>
  {
    if reqs == [] then []
    else Unsent(reqs[..|reqs| - 1], t, s) + if IsUnsent(reqs[|reqs| - 1], t, s) then [reqs[|reqs| - 1]] else []
  }

  ghost predicate IsUnsent(r: Request, t: Traffic, s: Server)
  {
    r in t.ns && t.ns[r] == s && InfoIn(t.info, r).txCount == 0
  }

  lemma {:induction false} UnsentIs(reqs: seq<Request>, t: Traffic, s: Server)
    ensures forall r :: r in Unsent(reqs, t, s) <==> r in reqs && IsUnsent(r, t, s)
  {
    if reqs != [] {
      UnsentIs(reqs[..|reqs| - 1], t, s);
      assert reqs == reqs[..|reqs| - 1] + [reqs[|reqs| - 1]];
    }
  }

  lemma {:induction false} UnsentSame(reqs: seq<Request>, t: Traffic, u: Traffic, s: Server)
    requires forall r :: IsUnsent(r, t, s) <==> IsUnsent(r, u, s)
    ensures Unsent(reqs, t, s) == Unsent(reqs, u, s)
  {
    if reqs != [] {
      UnsentSame(reqs[..|reqs| - 1], t, u, s);
    }
  }

  ghost function ServersOf(l: seq<Request>, ns: map<Request, Server>): seq<Server>
    requires forall r :: r in l ==> r in ns
  {
    seq(|l|, i requires 0 <= i < |l| => ns[l[i]])
  }

  /** Those of the requests that have not gone out to s have other servers, one pick after the other. */
  ghost predicate Turned(t: Traffic, u: Traffic, s: Server, reqs: seq<Request>)
  {
    var moved := Unsent(reqs, t, s);
    && u.ns.Keys == t.ns.Keys && (forall r :: r in moved ==> r in u.ns)
    && (forall r :: r in u.ns && r !in moved ==> u.ns[r] == t.ns[r])
    && InTurn(t.servers, u.up, ServersOf(moved, u.ns), u.servers)
  }

  /** A server that was up is down, and where others are up, what it has not sent yet is theirs. */
  ghost predicate FailedTo(t: Traffic, u: Traffic, s: Server, reqs: seq<Request>)
  {
    && u.info == t.info && u.choked == t.choked && u.up == t.up - {s}
    && (if s in t.up && u.up != {} then Turned(t, u, s, reqs) else u.ns == t.ns && u.servers == t.servers)
  }

  lemma TurnOne(before: Traffic, t: Traffic, u: Traffic, s: Server, reqs: seq<Request>, r: Request)
    requires Turned(before, t, s, reqs) && r !in reqs && r in t.ns && t.up == u.up == before.up && t.info == u.info == before.info
    requires if t.ns[r] == s && InfoIn(t.info, r).txCount == 0 then r in u.ns && u.ns == t.ns[r := u.ns[r]] && Picked(t.servers, u.up, u.ns[r], u.servers)
             else u.ns == t.ns && u.servers == t.servers
    ensures Turned(before, u, s, reqs + [r])
  {
    var moved := Unsent(reqs, before, s);
    UnsentIs(reqs, before, s);
    UnsentSnoc(reqs, r, before, s);
    assert r !in moved && t.ns[r] == before.ns[r];
    if IsUnsent(r, before, s) {
      var picks := ServersOf(moved + [r], u.ns);
      assert picks[..|moved|] == ServersOf(moved, t.ns) && Last(picks) == u.ns[r];
      assert InTurn(before.servers, u.up, picks[..|moved|], t.servers);
    } else {
      assert Unsent(reqs + [r], before, s) == moved;
    }
  }

  lemma UnsentSnoc(reqs: seq<Request>, r: Request, t: Traffic, s: Server)
    ensures Unsent(reqs + [r], t, s) == Unsent(reqs, t, s) + if IsUnsent(r, t, s) then [r] else []
  {
    assert (reqs + [r])[..|reqs|] == reqs;
  }

  /** Only requests, their counts and the list of servers decide. */
  lemma TurnedFrom(t: Traffic, before: Traffic, s: Server, reqs: seq<Request>)
    requires t.ns == before.ns && t.info == before.info && t.servers == before.servers
    ensures forall u :: Turned(before, u, s, reqs) ==> Turned(t, u, s, reqs)
  {
    UnsentSame(reqs, t, before, s);
  }

  /**
   * Where a server fails and others are up: just the requests that it had not sent have other servers, and the i-th of
   * them has the i-th one that was up, counted from server_head on and around again.
   */
  lemma TurnedIs(t: Traffic, u: Traffic, s: Server, reqs: seq<Request>)
    requires FailedTo(t, u, s, reqs) && s in t.up && u.up != {}
    ensures var moved := Unsent(reqs, t, s); var g := GoodOnes(t.servers, u.up);
            && (forall r :: r in moved <==> r in reqs && IsUnsent(r, t, s))
            && (forall r :: r in u.ns && r !in moved ==> u.ns[r] == t.ns[r])
            && (moved != [] ==> g != []) && (forall r :: r in moved ==> r in u.ns && u.ns[r] in u.up)
            && forall i :: 0 <= i < |moved| ==> u.ns[moved[i]] == g[i % |g|]
  {
    hide GoodOnes, InTurn;
    var moved := Unsent(reqs, t, s);
    UnsentIs(reqs, t, s);
    var picks := ServersOf(moved, u.ns);
    InTurnIs(t.servers, u.up, picks, u.servers);
    InTurnUp(t.servers, u.up, picks, u.servers);
    assert forall i :: 0 <= i < |moved| ==> picks[i] == u.ns[moved[i]];
  }

  /** One transmission of r. */
  ghost predicate Transmitted(t: Traffic, u: Traffic, r: Request, out: Sending, reqs: seq<Request>)
    requires r in t.ns
  {
    var s, i := t.ns[r], InfoIn(t.info, r);
    && (out == Choked <==> s in t.choked)
    && u.info == t.info[r := if out == Choked || out == Blocked then MarkedInfo(i) else SentInfo(i)]
    && u.choked == (if out == Blocked then t.choked + {s} else t.choked)
    && (if out == Failed then FailedTo(t, u.(info := t.info), s, reqs) else u.up == t.up && u.ns == t.ns && u.servers == t.servers)
  }

  /** Every other request is as it was, or was marked and has gone out once. */
  ghost predicate Advanced(t: Traffic, u: Traffic, q: Request)
  {
    InfoIn(u.info, q) == InfoIn(t.info, q) || (InfoIn(t.info, q).transmitMe && InfoIn(u.info, q) == SentInfo(InfoIn(t.info, q)))
  }

  /** A request that is still marked had a choked server, or its server has failed. */
  ghost predicate Tried(t: Traffic, u: Traffic, q: Request)
    requires u.ns.Keys == t.ns.Keys
  {
    q in u.ns && InfoIn(u.info, q).transmitMe ==> t.ns[q] in u.choked || u.ns[q] != t.ns[q]
  }

  /** Any number of marked requests have been transmitted. */
  ghost predicate Onward(t: Traffic, u: Traffic)
  {
    && u.ns.Keys == t.ns.Keys && u.up <= t.up && t.choked <= u.choked && (forall q :: Advanced(t, u, q))
    && (u.up == t.up ==> u.ns == t.ns && u.servers == t.servers)
    && (forall q :: q in u.ns && u.ns[q] != t.ns[q] ==> t.ns[q] in t.up && t.ns[q] !in u.up && InfoIn(t.info, q).txCount == 0)
    && (u.up == t.up ==> forall s :: s in u.choked && s !in t.choked ==> exists q :: HadMark(t, q, s))
  }

  ghost predicate WatchedIn(info: map<Request, Info>, ns: map<Request, Server>, live: set<Request>, loose: set<Request>)
  {
    && (forall r :: r in ns && r !in loose ==> InfoIn(info, r).timing || InfoIn(info, r).transmitMe)
    && (forall r :: r in live && r !in ns ==> InfoIn(info, r) == FreshInfo)
  }

  lemma WatchedElsewhere(info: map<Request, Info>, ns: map<Request, Server>, ns': map<Request, Server>, live: set<Request>, loose: set<Request>)
    requires WatchedIn(info, ns, live, loose) && ns'.Keys == ns.Keys
    ensures WatchedIn(info, ns', live, loose)
  {
  }

  lemma WatchedFresh(info: map<Request, Info>, ns: map<Request, Server>, live: set<Request>, loose: set<Request>, r: Request)
    requires WatchedIn(info, ns, live, loose) && r in live && r !in ns
    ensures InfoIn(info, r) == FreshInfo
  {
  }

  lemma WatchedListed(info: map<Request, Info>, ns: map<Request, Server>, live: set<Request>, loose: set<Request>, r: Request)
    requires WatchedIn(info, ns, live, loose) && r !in ns
    ensures WatchedIn(info, ns, live, loose - {r})
  {
  }

  /** One request changes that is in no list, or goes, or is new. */
  lemma WatchedBut(r: Request, t: Traffic, u: Traffic, live: set<Request>, live': set<Request>, loose: set<Request>, loose': set<Request>)
    requires WatchedIn(t.info, t.ns, live, loose)
    requires forall q :: q != r ==>
               && InfoIn(u.info, q) == InfoIn(t.info, q) && (q in u.ns <==> q in t.ns)
               && (q in live <==> q in live') && (q in loose <==> q in loose')
    requires r in u.ns ==> r in loose'
    requires r in live' && r !in u.ns ==> InfoIn(u.info, r) == FreshInfo
    ensures WatchedIn(u.info, u.ns, live', loose')
  {
  }

  lemma WatchedSent(t: Traffic, u: Traffic, ns: map<Request, Server>, r: Request, out: Sending, reqs: seq<Request>,
                    live: set<Request>, loose: set<Request>, loose': set<Request>)
    requires WatchedIn(t.info, ns, live, loose) && r in t.ns && Transmitted(t, u, r, out, reqs)
    requires t.ns.Keys == ns.Keys + {r} && loose <= loose' + {r}
    ensures WatchedIn(u.info, u.ns, live, loose')
  {
    TransmittedIs(t, u, r, out, reqs);
  }

  lemma WatchedOnward(t: Traffic, u: Traffic, live: set<Request>, loose: set<Request>)
    requires WatchedIn(t.info, t.ns, live, loose) && Onward(t, u)
    ensures WatchedIn(u.info, u.ns, live, loose)
  {
    forall r ensures InfoIn(u.info, r) == InfoIn(t.info, r) || (InfoIn(u.info, r).timing && InfoIn(t.info, r).transmitMe) {
      assert Advanced(t, u, r);
    }
  }

  lemma WatchedReissued(t: Traffic, mid: Traffic, u: Traffic, r: Request, again: bool, s: Server, reqs: seq<Request>, live: set<Request>, loose: set<Request>)
    requires FailedTo(t, mid, s, reqs) && r in mid.ns && Reissued(mid, u, r, again) && u.ns.Keys == mid.ns.Keys == t.ns.Keys
    requires WatchedIn(t.info, t.ns, live, loose)
    ensures WatchedIn(u.info, u.ns, live, loose)
  {
  }

  lemma WatchedRetried(t: Traffic, mid: Traffic, u: Traffic, r: Request, out: Sending, reqs: seq<Request>, live: set<Request>, loose: set<Request>)
    requires r in t.ns && RetriedTo(t, mid, u, r, out, reqs) && WatchedIn(t.info, t.ns, live, loose)
    ensures WatchedIn(u.info, u.ns, live, loose)
  {
    TransmittedIs(mid, u, r, out, reqs);
  }

  ghost predicate AllTried(t: Traffic, u: Traffic, reqs: seq<Request>)
  {
    u.ns.Keys == t.ns.Keys && forall q :: q in reqs ==> Tried(t, u, q)
  }

  lemma FailedFrom(t: Traffic, marked: Traffic, u: Traffic, r: Request, s: Server, reqs: seq<Request>)
    requires marked == t.(info := t.info[r := MarkedInfo(InfoIn(t.info, r))]) && FailedTo(marked, u, s, reqs)
    ensures FailedTo(t, u.(info := t.info), s, reqs)
  {
    UnsentSame(reqs, t, marked, s);
  }

  /** A request that goes out is counted once more and waits for its timeout; one that does not is marked. No server comes up. */
  lemma TransmittedIs(t: Traffic, u: Traffic, r: Request, out: Sending, reqs: seq<Request>)
    requires r in t.ns && Transmitted(t, u, r, out, reqs)
    ensures var a, b := InfoIn(t.info, r), InfoIn(u.info, r);
            b == if out == Sent || out == Failed then Info(a.txCount + 1, a.reissues, false, true)
                 else Info(a.txCount, a.reissues, true, a.timing)
    ensures forall q :: q != r ==> InfoIn(u.info, q) == InfoIn(t.info, q)
    ensures u.ns.Keys == t.ns.Keys && u.up <= t.up && (u.up == t.up ==> u.ns == t.ns && u.servers == t.servers)
    ensures forall q :: q in u.ns && u.ns[q] != t.ns[q] ==>
              t.ns[q] in t.up && t.ns[q] !in u.up && InfoIn(t.info, q).txCount == 0 && u.ns[q] in u.up
  {
    var s, v := t.ns[r], u.(info := t.info);
    if out == Failed && s in t.up && u.up != {} {
      TurnedIs(t, v, s, reqs);
    }
  }

  lemma OnwardStep(t: Traffic, u: Traffic, v: Traffic, r: Request, out: Sending, reqs: seq<Request>)
    requires Onward(t, u) && r in u.ns && Transmitted(u, v, r, out, reqs) && InfoIn(u.info, r).transmitMe
    ensures Onward(t, v) && Tried(t, v, r) && forall q :: q != r && Tried(t, u, q) ==> Tried(t, v, q)
  {
    hide FailedTo, HadMark;
    TransmittedIs(u, v, r, out, reqs);
    assert Advanced(t, u, r);
    forall q ensures Advanced(t, v, q) {
      assert Advanced(t, u, q);
    }
    forall q | q in v.ns && v.ns[q] != t.ns[q] ensures t.ns[q] in t.up && t.ns[q] !in v.up && InfoIn(t.info, q).txCount == 0 {
      assert Advanced(t, u, q);
    }
    assert v.up == t.up ==> u.up == t.up;
    ChokedStep(t, u, v, r, out, reqs);
  }

  lemma ChokedStep(t: Traffic, u: Traffic, v: Traffic, r: Request, out: Sending, reqs: seq<Request>)
    requires Onward(t, u) && r in u.ns && Transmitted(u, v, r, out, reqs) && InfoIn(u.info, r).transmitMe
    ensures v.up == u.up == t.up ==> forall s :: s in v.choked && s !in t.choked ==> exists q :: HadMark(t, q, s)
  {
    hide FailedTo;
    if v.up == u.up == t.up {
      assert Advanced(t, u, r) && HadMark(t, r, u.ns[r]);
    }
  }

  /** The requests `promoted` have gone in flight, and marked ones have been transmitted. */
  ghost predicate Pumping(t: Traffic, u: Traffic, promoted: seq<Request>)
  {
    && u.ns.Keys == t.ns.Keys + (set q | q in promoted) && u.up <= t.up && t.choked <= u.choked
    && (forall q :: q !in promoted ==> Advanced(t, u, q))
    && (forall q :: q in promoted ==> InfoIn(u.info, q) == MarkedInfo(FreshInfo) || InfoIn(u.info, q) == SentInfo(FreshInfo))
    && (promoted == [] ==> u == t)
  }

  lemma PumpedOne(a: Traffic, b: Traffic, c: Traffic, d: Traffic, r: Request, out: Sending, reqs: seq<Request>)
    requires b.info == a.info && b.up == a.up && b.choked == a.choked && b.ns.Keys == a.ns.Keys + {r} && InfoIn(a.info, r) == FreshInfo
    requires Transmitted(b, c, r, out, reqs) && Onward(c, d)
    ensures Pumping(a, d, [r])
  {
    hide FailedTo;
    TransmittedIs(b, c, r, out, reqs);
    forall q | q != r ensures Advanced(a, d, q) {
      assert Advanced(c, d, q);
    }
    assert Advanced(c, d, r);
  }

  lemma PumpingMore(a: Traffic, b: Traffic, c: Traffic, promoted: seq<Request>, r: Request)
    requires Pumping(a, b, promoted) && Pumping(b, c, [r]) && r !in promoted
    ensures Pumping(a, c, promoted + [r])
  {
    forall q | q !in promoted + [r] ensures Advanced(a, c, q) {
      assert Advanced(a, b, q) && Advanced(b, c, q);
    }
    forall q | q in promoted ensures InfoIn(c.info, q) == MarkedInfo(FreshInfo) || InfoIn(c.info, q) == SentInfo(FreshInfo) {
      assert Advanced(b, c, q);
    }
  }

  /** request_reissue: the next pick, if it is another server. */
  ghost predicate Reissued(t: Traffic, u: Traffic, r: Request, again: bool)
    requires r in t.ns
  {
    && u.up == t.up && u.choked == t.choked && r in u.ns && u.ns == t.ns[r := u.ns[r]] && Picked(t.servers, t.up, u.ns[r], u.servers)
    && (again <==> u.ns[r] != t.ns[r])
    && u.info == if again then t.info[r := InfoIn(t.info, r).(reissues := InfoIn(t.info, r).reissues + 1, txCount := 0, transmitMe := true)]
                 else t.info
  }

  /** A retransmission: the timeout is taken off, and the next pick gets the request. */
  ghost predicate RetriedTo(t: Traffic, mid: Traffic, u: Traffic, r: Request, out: Sending, reqs: seq<Request>)
    requires r in t.ns
  {
    && mid == t.(info := t.info[r := InfoIn(t.info, r).(timing := false)], ns := mid.ns, servers := mid.servers)
    && r in mid.ns && mid.ns == t.ns[r := mid.ns[r]] && Picked(t.servers, t.up, mid.ns[r], mid.servers)
    && Transmitted(mid, u, r, out, reqs)
  }

  /** After a refusal another server is found, unless none is up and server_head leads back; for a request that had gone out. */
  lemma ReissuedIs(t: Traffic, mid: Traffic, u: Traffic, r: Request, again: bool, reqs: seq<Request>)
    requires r in t.ns && InfoIn(t.info, r).txCount > 0 && |t.servers| > 0
    requires FailedTo(t, mid, t.ns[r], reqs) && r in mid.ns && Reissued(mid, u, r, again)
    ensures again <==> t.up - {t.ns[r]} != {} || t.servers[1 % |t.servers|] != t.ns[r]
    ensures again && t.up - {t.ns[r]} != {} ==> u.ns[r] in u.up
    ensures var a := InfoIn(t.info, r); InfoIn(u.info, r) == if again then Info(0, a.reissues + 1, true, a.timing) else a
  {
    var s := t.ns[r];
    if s in t.up && mid.up != {} {
      TurnedIs(t, mid, s, reqs);
    }
    assert mid.ns[r] == s;
    if mid.up == {} {
      assert mid.servers == t.servers && u.ns[r] == t.servers[1 % |t.servers|];
    }
  }

  /** Without request r. */
  ghost function Minus(t: Traffic, r: Request): Traffic
  {
    t.(ns := t.ns - {r}, info := t.info - {r})
  }

  ghost predicate HadMark(t: Traffic, q: Request, s: Server)
  {
    q in t.ns && t.ns[q] == s && InfoIn(t.info, q).transmitMe
  }

  /** A callback that has been scheduled. */
  datatype Callback = Callback(handle: Handle, cancelled: bool)

  ghost function Owners(cbs: seq<Callback>): seq<Handle>
  {
    if cbs == [] then [] else [cbs[0].handle] + Owners(cbs[1..])
  }

  lemma {:induction false} OwnersSnoc(cbs: seq<Callback>, cb: Callback)
    ensures Owners(cbs + [cb]) == Owners(cbs) + [cb.handle]
  {
    if cbs == [] {
      assert Owners([]) == [] && cbs + [cb] == [cb];
      assert ([cb])[1..] == [];
    } else {
      OwnersSnoc(cbs[1..], cb);
      assert (cbs + [cb])[1..] == cbs[1..] + [cb];
    }
  }

  /** What a reply says; Refusal is DNS_ERR_NOTIMPL or DNS_ERR_REFUSED. */
  datatype Reply = Answer | Refusal | ServerFailed | OtherError

  /** Handles, their requests and their callbacks. */
  datatype Ledger = Ledger(
    created: set<Handle>,
    done: set<Handle>,
    probes: set<Handle>,
    current: map<Handle, Request>,
    waiting: seq<Request>,
    inflight: int,
    maxInflight: nat,
    scheduled: seq<Callback>,
    search: map<Handle, Search>,
    question: map<Request, Question>
  )

  /** How many waiting requests there is room for. */
  ghost function Room(b: Ledger): (n: nat)
    ensures n <= |b.waiting|
  {
    if b.inflight >= b.maxInflight then 0
    else if b.maxInflight - b.inflight < |b.waiting| then b.maxInflight - b.inflight
    else |b.waiting|
  }

  /** The first waiting requests have gone out, as many as there is room for. */
  ghost function Pumped(b: Ledger): Ledger
  {
    b.(waiting := b.waiting[Room(b)..], inflight := b.inflight + Room(b))
  }

  /** The request of a handle is gone. */
  ghost function Dropped(b: Ledger, h: Handle): Ledger
    requires h in b.current
  {
    var r := b.current[h];
    b.(current := b.current - {h}, question := b.question - {r}, waiting := Remove(b.waiting, r),
       inflight := if r in b.waiting then b.inflight else b.inflight - 1)
  }

  /** So is its search, and others go out. */
  ghost function Finished(b: Ledger, h: Handle): Ledger
    requires h in b.current
  {
    Pumped(Dropped(b, h).(search := b.search[h := NoSearch]))
  }

  ghost function Called(b: Ledger, h: Handle, cancelled: bool): Ledger
  {
    b.(scheduled := b.scheduled + [Callback(h, cancelled)])
  }

  /** The callback of a handle is scheduled, and it is finished. */
  ghost function Closed(b: Ledger, h: Handle, cancelled: bool): Ledger
    requires h in b.current
  {
    Finished(Called(b, h, cancelled), h)
  }

  /** evdns_cancel_request. */
  ghost function Cancelled(b: Ledger, h: Option<Handle>): Ledger
  {
    if h.Some? && h.value in b.current && h.value !in Owners(b.scheduled) then Closed(b, h.value, true) else b
  }

  /** A new request has the handle: inflight if there was room for it, else at the end of the waiting ones. */
  ghost function Submitted(b: Ledger, h: Handle, q: Request, question: Question, issuing: bool): Ledger
  {
    b.(current := b.current[h := q], question := b.question[q := question],
       waiting := if issuing then b.waiting else b.waiting + [q], inflight := if issuing then b.inflight + 1 else b.inflight)
  }

  function SearchOf(search: map<Handle, Search>, h: Handle): Search
  {
    if h in search then search[h] else NoSearch
  }

  /** A good reply: the callback, then what nameserver_up cancels, then the request goes. */
  ghost function Replied(b: Ledger, h: Handle, rival: Option<Handle>): Ledger
    requires h in b.current && rival != Some(h)
  {
    Finished(Cancelled(Called(b, h, false), rival), h)
  }

  lemma {:induction false} RemoveFewer(l: seq<Request>, r: Request)
    ensures forall q :: q in Remove(l, r) ==> q in l
  {
    if l != [] {
      RemoveFewer(l[1..], r);
    }
  }

  lemma NotPromoted(b: Ledger, h: Handle, q: Request)
    requires h in b.current && q !in b.waiting
    ensures var d := Dropped(b, h); q !in d.waiting[..Room(d)]
  {
    RemoveFewer(b.waiting, b.current[h]);
  }

  lemma NextIs(b: Ledger, c: Ledger, h: Handle, q: Request)
    requires h in b.current && NextQuestion(SearchOf(b.search, h)).Some? && q != b.current[h]
    requires var s := SearchOf(b.search, h);
             && c == b.(search := c.search, question := b.question[q := NextQuestion(s).value])
             && c.search == b.search[h := NextSearch(s)]
    ensures Submitted(Pumped(Dropped(c, h)), h, q, c.question[q], b.inflight < b.maxInflight) == AskedNext(b, h, q)
  {
    var name := c.question[q];
    var d := Dropped(b.(search := c.search), h);
    assert Dropped(c, h) == d.(question := d.question[q := name]);
    assert d.question[q := name][q := name] == d.question[q := name];
  }

  /** Where a handle ends, so does its search. */
  lemma EndsSearch(b: Ledger, c: Ledger, h: Handle)
    requires h in b.current && c == b.(search := c.search) && c.search[h := NoSearch] == b.search[h := NoSearch]
    ensures Closed(c, h, false) == Closed(b, h, false)
  {
    assert Dropped(Called(c, h, false), h) == Dropped(Called(b, h, false), h).(search := c.search);
  }

  lemma StaysOut(t: Traffic, r: Request, u: Traffic, q: Request, promoted: seq<Request>)
    requires Pumping(Minus(t, r), u, promoted) && q != r && q !in promoted
    ensures q in u.ns <==> q in t.ns
  {
  }

  /** Where none waits, none goes out. */
  lemma NoneWaits(b: Ledger, h: Option<Handle>)
    ensures b.waiting == [] ==> Cancelled(b, h).waiting == []
  {
  }

  lemma OthersStay(b: Ledger, rival: Option<Handle>, h: Handle)
    requires rival != Some(h)
    ensures var c := Cancelled(b, rival);
            && (h in c.current <==> h in b.current) && (h in b.current ==> c.current[h] == b.current[h])
            && SearchOf(c.search, h) == SearchOf(b.search, h)
  {
  }

  /** What an error does before the next name: good servers are noted. */
  ghost function Judged(b: Ledger, reply: Reply, rival: Option<Handle>): Ledger
  {
    if reply == Refusal || reply == ServerFailed then b else Cancelled(b, rival)
  }

  /** A new handle has asked its first question. */
  ghost function Asked(b: Ledger, h: Handle, q: Request, first: (Question, Search)): Ledger
  {
    Submitted(b.(created := b.created + {h}, search := b.search[h := first.1]), h, q, first.0, b.inflight < b.maxInflight)
  }

  /** A probe: in flight whatever the limit. */
  ghost function Probing(b: Ledger, h: Handle, q: Request): Ledger
  {
    Submitted(b.(created := b.created + {h}, search := b.search[h := NoSearch], probes := b.probes + {h}), h, q, Raw, true)
  }

  /** The next name of a search: whether there is room for it is settled before the old request goes. */
  ghost function AskedNext(b: Ledger, h: Handle, q: Request): Ledger
    requires h in b.current && NextQuestion(SearchOf(b.search, h)).Some?
  {
    var s := SearchOf(b.search, h);
    Submitted(Pumped(Dropped(b.(search := b.search[h := NextSearch(s)]), h)), h, q, NextQuestion(s).value, b.inflight < b.maxInflight)
  }

  /** There is no room where a request waits. */
  ghost predicate Busy(b: Ledger)
  {
    b.waiting != [] ==> b.inflight >= b.maxInflight
  }

  /** Finishing leaves no request waiting where there is room, and lets none out where there is none. */
  lemma FinishedBusy(b: Ledger, h: Handle)
    requires h in b.current
    ensures Busy(Finished(b, h)) && Finished(b, h).inflight <= if b.inflight <= b.maxInflight then b.maxInflight else b.inflight
  {
  }

  /**
   * The next name of a search is left waiting though there is room for it just when all of the room was taken, and no
   * other request was waiting. Nothing sends it before another request is finished.
   */
  lemma NextWaits(b: Ledger, h: Handle, q: Request)
    requires Busy(b) && h in b.current && b.current[h] !in b.waiting && NextQuestion(SearchOf(b.search, h)).Some?
    ensures Busy(AskedNext(b, h, q)) <==> !(b.inflight == b.maxInflight && b.waiting == [])
  {
    RemoveNone(b.waiting, b.current[h]);
  }

  lemma {:induction false} RemoveNone(l: seq<Request>, r: Request)
    requires r !in l
    ensures Remove(l, r) == l
  {
    if l != [] {
      RemoveNone(l[1..], r);
    }
  }

  class EvdnsBase {
    /** The requests that are allocated, and their fields; a null pointer is a missing key. */
    var live: set<Request>
    var ns: map<Request, Server>
    var transId: map<Request, nat>
    var owner: map<Request, Handle>
    var info: map<Request, Info>
    var question: map<Request, Question>

    /** The next and prev fields of the requests, and the heads of their circular lists: req_heads and req_waiting_head. */
    var links: Links
    var reqHeads: seq<Option<Request>>
    var waitingHead: Option<Request>
    /** The members of these lists. */
    ghost var heads: seq<seq<Request>>
    ghost var waiting: seq<Request>
    var inflight: int
    var waitingCount: int
    var maxInflight: nat
    var maxReissues: nat
    var maxRetransmits: nat
    var maxTimeouts: nat

    /** The handles that are allocated, and their fields. */
    var handles: set<Handle>
    var current: map<Handle, Request>
    var pending: set<Handle>
    var search: map<Handle, Search>
    var probeFor: map<Handle, Server>

    /** The nameservers in circular order from server_head, and those that are up. */
    var servers: seq<Server>
    var up: set<Server>
    var good: int
    var timedout: map<Server, nat>
    var probe: map<Server, Handle>

    /** The queue of deferred callbacks, and the handles whose callbacks have run. */
    var scheduled: seq<Callback>
    ghost var done: set<Handle>
    ghost var created: set<Handle>
    /** Servers whose sockets take no more for now. */
    var choked: set<Server>
    /** No request or handle with this number or a higher one has been allocated. */
    var next: nat

    /** Within an operation: a request in no list yet, a handle whose callback is scheduled before it is */
    /** finished, a handle between two requests of a search, and a server whose probe is being cancelled. */
    ghost var loose: set<Request>
    ghost var closing: set<Handle>
    ghost var orphan: set<Handle>
    ghost var cancelling: set<Server>

    function InfoOf(r: Request): Info
      reads `info
    {
      InfoIn(info, r)
    }

    ghost function Book(): Ledger
      reads `created, `done, `probeFor, `current, `waiting, `inflight, `maxInflight, `scheduled, `search, `question
    {
      Ledger(created, done, probeFor.Keys, current, waiting, inflight, maxInflight, scheduled, search, question)
    }

    ghost function Net(): Traffic
      reads `info, `choked, `up, `ns, `servers
    {
      Traffic(info, choked, up, ns, servers)
    }

    /** No request in flight is forgotten: its timeout is pending, or it is marked to go out. No other one has gone out. */
    ghost predicate Watched()
      reads `live, `ns, `loose, `info
    {
      WatchedIn(info, ns, live, loose)
    }

    /** The circular list of a request that has a nameserver. */
    function Bucket(r: Request): nat
      reads `transId, `reqHeads
      requires r in transId && reqHeads != []
    {
      transId[r] % |reqHeads|
    }

    /** Every live request is in the one list that its nameserver and transaction id tell, and the links close the lists. */
    ghost predicate Lists()
      reads `live, `ns, `transId, `heads, `waiting, `loose, `reqHeads, `waitingHead, `links
    {
      Members() && Rings()
    }

    ghost predicate Rings()
      reads `heads, `waiting, `reqHeads, `waitingHead, `links
    {
      && |reqHeads| == |heads| && (forall i :: 0 <= i < |heads| ==> IsRing(heads[i], reqHeads[i], links))
      && IsRing(waiting, waitingHead, links)
    }

    ghost predicate Members()
      reads `live, `ns, `transId, `heads, `waiting, `loose, `reqHeads
    {
      && heads != [] && |reqHeads| == |heads| && (forall i :: 0 <= i < |heads| ==> Distinct(heads[i])) && Distinct(waiting)
      && loose <= live && ns.Keys <= live && live <= transId.Keys
      && (forall i, r {:trigger r in heads[i]} :: 0 <= i < |heads| ==>
            (r in heads[i] <==> r in live && r !in loose && r in ns && Bucket(r) == i))
      && (forall r :: r in waiting <==> r in live && r !in loose && r !in ns)
    }

    ghost predicate Counts()
      reads `heads, `waiting, `inflight, `waitingCount
    {
      inflight == Total(heads) && waitingCount == |waiting|
    }

    /** Handles and requests point at each other. */
    ghost predicate Owned()
      reads `live, `owner, `loose, `handles, `current
    {
      && owner.Keys <= live && current.Keys <= handles
      && (forall r :: r in live && r !in loose ==> r in owner)
      && (forall r :: r in owner ==> owner[r] in current && current[owner[r]] == r)
      && (forall h :: h in current ==> current[h] in owner && owner[current[h]] == h)
    }

    /** A handle has had its one callback scheduled just when it is finished. */
    ghost predicate OneCall()
      reads `handles, `current, `pending, `scheduled, `done, `created, `closing, `orphan
    {
      && handles <= created && done <= created && Distinct(Owners(scheduled))
      && (forall h :: h in Owners(scheduled) ==> h in handles && h !in done)
      && (forall h :: h in pending <==> h in Owners(scheduled))
      && (forall h :: h in created ==> (h in done <==> h !in handles))
      && (forall h :: h in handles && h !in closing && h !in orphan ==> (h in Owners(scheduled) <==> h !in current))
      && (forall h :: h in closing ==> h in current && h in Owners(scheduled))
      && (forall h :: h in orphan ==> h in handles && h !in current && h !in Owners(scheduled))
    }

    ghost predicate Served()
      reads `ns, `servers, `up, `good, `probeFor
    {
      && servers != [] && Distinct(servers) && good == |up|
      && (forall s :: s in up ==> s in servers)
      && (forall r :: r in ns ==> ns[r] in servers)
      && (forall h :: h in probeFor ==> probeFor[h] in servers)
    }

    /** A nameserver's probe is an allocated handle of its own that has not been cancelled. */
    ghost predicate Probed()
      reads `probe, `probeFor, `handles, `scheduled, `created, `cancelling
    {
      && probeFor.Keys <= created
      && (forall s :: s in probe ==> probe[s] in handles && probe[s] in probeFor && probeFor[probe[s]] == s)
      && (forall s :: s in probe && s !in cancelling ==> Callback(probe[s], true) !in scheduled)
    }

    ghost predicate Fresh()
      reads `live, `created, `next
    {
      (forall r :: r in live ==> r < next) && (forall h :: h in created ==> h < next)
    }

    ghost predicate Valid()
      reads this
    {
      Lists() && Counts() && Owned() && OneCall() && Served() && Probed() && Fresh() && Watched()
    }

    /** Between operations. */
    ghost predicate Quiet()
      reads this
    {
      Valid() && loose == {} && closing == {} && orphan == {} && cancelling == {}
    }

    /**
     * Two requests reached from each other's lists: following next and prev stays within one list. What next leads to
     * has the same server state and bucket, and prev leads back.
     */
    lemma LinksStay(r: Request)
      requires Quiet() && r in live
      ensures r in links.next && links.next[r] in live && links.next[r] in links.prev && links.prev[links.next[r]] == r
      ensures r in ns <==> links.next[r] in ns
      ensures r in ns ==> Bucket(links.next[r]) == Bucket(r)
    {
      var l := if r in ns then heads[Bucket(r)] else waiting;
      assert r in l;
      var k :| 0 <= k < |l| && l[k] == r;
      assert Linked(l, k, links);
      assert l[After(k, |l|)] in l;
    }

    /** A handle has either a request, or one callback that is scheduled, or one that has run. */
    lemma OneCallback(h: Handle)
      requires Quiet() && h in created
      ensures h in current ==> current[h] in live && h !in Owners(scheduled) && h !in done
      ensures h !in current ==> (h in done <==> h !in Owners(scheduled))
      ensures Distinct(Owners(scheduled))
    {
    }

    /** evdns_base_new and its first nameservers. */
    constructor (servers: seq<Server>, maxInflight: nat)
      requires servers != [] && Distinct(servers) && maxInflight > 0
      ensures Quiet() && live == {} && this.servers == servers && probe == map[] && Net().up == set s | s in servers
      ensures Book() == Ledger({}, {}, {}, map[], [], 0, maxInflight, [], map[], map[])
      ensures maxReissues == 1 && maxRetransmits == 3 && maxTimeouts == 3
    {
      live, ns, transId, owner, info, question := {}, map[], map[], map[], map[], map[];
      heads, waiting, inflight, waitingCount := seq((maxInflight + 4) / 5, _ => []), [], 0, 0;
      reqHeads, waitingHead, links := seq((maxInflight + 4) / 5, _ => None), None, Links(map[], map[]);
      this.maxInflight, maxReissues, maxRetransmits, maxTimeouts := maxInflight, 1, 3, 3;
      handles, current, pending, search, probeFor := {}, map[], {}, map[], map[];
      var all := set s | s in servers;
      this.servers, up, good := servers, all, |all|;
      timedout, probe, scheduled, choked, next := map[], map[], [], {}, 0;
      done, created, loose, closing, orphan, cancelling := {}, {}, {}, {}, {}, {};
      new;
      TotalZero(heads);
    }

    /** nameserver_pick: a server that is up, if any is; server_head moves on. */
    method NameserverPick() returns (s: Server)
      requires Served()
      modifies `servers
      ensures Served() && Picked(old(servers), up, s, servers)
      ensures s in servers && (up != {} ==> s in up) && forall x :: x in servers <==> x in old(servers)
    {
      if good == 0 {
        Rotate();
        return servers[0];
      }
      assert up != {};
      ghost var was, k := servers, 0;
      while servers[0] !in up
        invariant Served() && (forall x :: x in servers <==> x in old(servers))
        invariant k < |was| && servers == was[k..] + was[..k] && forall i :: 0 <= i < k ==> was[i] !in up
        decreases |was| - k
      {
        SomeUp(was, k);
        OneFurther(was, k);
        Rotate();
        k := k + 1;
      }
      OneFurther(was, k);
      s := servers[0];
      Rotate();
      assert PickedAt(was, up, k, s, servers);
    }

    lemma OneFurther(was: seq<Server>, k: nat)
      requires k < |was|
      ensures var now := was[k..] + was[..k]; now[0] == was[k] && now[1..] + [now[0]] == was[k + 1..] + was[..k + 1]
    {
    }

    lemma SomeUp(was: seq<Server>, k: nat)
      requires Served() && up != {} && k < |was| && was[k] !in up && servers == was[k..] + was[..k]
      requires forall i :: 0 <= i < k ==> was[i] !in up
      ensures k + 1 < |was|
    {
      var x :| x in up;
      var i :| 0 <= i < |servers| && servers[i] == x;
    }

    /** server_head = server_head->next. */
    method Rotate()
      requires Served()
      modifies `servers
      ensures Served() && servers == old(servers)[1..] + [old(servers)[0]]
      ensures forall x :: x in servers <==> x in old(servers)
    {
      AppendDistinct(servers[1..], servers[0]);
      assert servers == [servers[0]] + servers[1..];
      servers := servers[1..] + [servers[0]];
    }

    /** nameserver_failed: what it has not sent yet goes to other servers in turn. */
    method NameserverFailed(s: Server)
      requires Lists() && Served()
      modifies `up, `good, `ns, `servers
      ensures Lists() && Served() && ns.Keys == old(ns.Keys) && forall x :: x in servers <==> x in old(servers)
      ensures FailedTo(old(Net()), Net(), s, Flat(heads))
    {
      hide Lists, Served, Turned, WatchedIn;
      if s !in up {
        return;
      }
      Demote(s);
      if good == 0 {
        return;
      }
      ghost var before := Net();
      NoneTurned(before, s);
      UptoAll();
      FirstOf(0);
      for i := 0 to |reqHeads|
        modifies `ns, `servers
        invariant Lists() && Served() && ns.Keys == before.ns.Keys && forall x :: x in servers <==> x in old(servers)
        invariant |reqHeads| == |heads| && Turned(before, Net(), s, Upto(i, 0))
      {
        ReassignList(i, s, before);
      }
      TurnedFrom(old(Net()), before, s, Flat(heads));
    }

    /** In the order of the loops: the first i lists, and the first k members of the next one. */
    ghost function Upto(i: nat, k: nat): seq<Request>
      requires i <= |heads| && (i < |heads| ==> k <= |heads[i]|)
      reads `heads
    {
      Flat(heads[..i]) + if i < |heads| then heads[i][..k] else []
    }

    lemma UptoAll()
      ensures Upto(0, 0) == [] && Upto(|heads|, 0) == Flat(heads)
    {
      assert heads[..|heads|] == heads;
    }

    lemma UptoRow(i: nat)
      requires i < |heads|
      ensures Upto(i, |heads[i]|) == Upto(i + 1, 0)
    {
      assert heads[..i + 1][..i] == heads[..i];
      assert heads[i][..|heads[i]|] == heads[i];
    }

    lemma UptoNext(i: nat, k: nat)
      requires Members() && i < |heads| && k < |heads[i]|
      ensures Upto(i, k + 1) == Upto(i, k) + [heads[i][k]] && heads[i][k] !in Upto(i, k)
    {
      var r := heads[i][k];
      assert heads[i][..k + 1] == heads[i][..k] + [r];
      assert r in heads[i];
      FlatHas(heads[..i], r);
      assert forall j :: 0 <= j < i ==> heads[..i][j] == heads[j];
      DistinctPrefix(heads[i], k);
    }

    lemma NoneTurned(before: Traffic, s: Server)
      requires before == Net()
      ensures Upto(0, 0) == [] && Turned(before, Net(), s, [])
    {
      assert ServersOf([], ns) == [];
    }

    lemma FirstOf(i: nat)
      requires Lists()
      ensures |reqHeads| == |heads|
      ensures i < |heads| ==> reqHeads[i] == if heads[i] == [] then None else Some(heads[i][0])
    {
    }

    /** Where next leads from place k of a list. */
    lemma NextOf(i: nat, k: nat)
      requires Lists() && i < |heads| && k < |heads[i]|
      ensures heads[i][k] in links.next && heads[i][k] in ns
      ensures links.next[heads[i][k]] == heads[i][if k + 1 < |heads[i]| then k + 1 else 0]
      ensures k + 1 < |heads[i]| ==> heads[i][k + 1] != heads[i][0]
    {
      assert Linked(heads[i], k, links) && heads[i][k] in heads[i];
      AllDifferent(heads[i]);
    }

    /** One turn of the loop of nameserver_failed over the lists: do ... while (req != started_at). */
    method ReassignList(i: nat, s: Server, ghost before: Traffic)
      requires Lists() && Served() && i < |reqHeads| == |heads| && up != {} && before.up == up && before.info == info
      requires ns.Keys == before.ns.Keys && Turned(before, Net(), s, Upto(i, 0))
      modifies `ns, `servers
      ensures Lists() && Served() && ns.Keys == before.ns.Keys && forall x :: x in servers <==> x in old(servers)
      ensures Turned(before, Net(), s, Upto(i + 1, 0))
    {
      hide Lists, Served, Turned, WatchedIn;
      FirstOf(i);
      if reqHeads[i].Some? {
        var startedAt := reqHeads[i].value;
        var req := startedAt;
        ghost var k := 0;
        while true
          invariant Lists() && Served() && ns.Keys == before.ns.Keys && forall x :: x in servers <==> x in old(servers)
          invariant k < |heads[i]| && req == heads[i][k] && Turned(before, Net(), s, Upto(i, k))
          decreases |heads[i]| - k
        {
          ReassignAt(i, k, req, s, before);
          NextOf(i, k);
          req := links.next[req];
          k := k + 1;
          if req == startedAt {
            break;
          }
        }
      }
      UptoRow(i);
    }

    method Demote(s: Server)
      requires Served() && s in up
      modifies `up, `good
      ensures Served() && up == old(up) - {s} && (good == 0 <==> up == {})
    {
      good := good - 1;
      up := up - {s};
    }

    lemma ReachNext(i: nat, k: nat)
      requires Lists() && i < |heads| && k < |heads[i]|
      ensures Upto(i, k + 1) == Upto(i, k) + [heads[i][k]] && heads[i][k] !in Upto(i, k) && heads[i][k] in ns
    {
      UptoNext(i, k);
      assert heads[i][k] in heads[i];
    }

    method ReassignAt(ghost i: nat, ghost k: nat, r: Request, s: Server, ghost before: Traffic)
      requires Lists() && Served() && i < |heads| && k < |heads[i]| && r == heads[i][k]
      requires ns.Keys == before.ns.Keys && before.up == up && before.info == info && up != {}
      requires Turned(before, Net(), s, Upto(i, k))
      modifies `ns, `servers
      ensures Lists() && Served() && ns.Keys == before.ns.Keys && forall x :: x in servers <==> x in old(servers)
      ensures Turned(before, Net(), s, Upto(i, k + 1))
    {
      hide Lists, Served, Turned, WatchedIn;
      ReachNext(i, k);
      ghost var t := Net();
      Reassign(r, s);
      TurnOne(before, t, Net(), s, Upto(i, k), r);
    }

    /** A request that has not gone out to s goes to another server. */
    method Reassign(r: Request, s: Server)
      requires Lists() && Served() && r in ns
      modifies `ns, `servers
      ensures Lists() && Served() && ns.Keys == old(ns.Keys) && forall x :: x in servers <==> x in old(servers)
      ensures if old(ns)[r] == s && InfoOf(r).txCount == 0 then ns == old(ns)[r := ns[r]] && Picked(old(servers), up, ns[r], servers)
              else ns == old(ns) && servers == old(servers)
    {
      hide Lists, Served, WatchedIn;
      if ns[r] == s && InfoOf(r).txCount == 0 {
        var picked := NameserverPick();
        SetServer(r, picked);
      }
    }

    /** req->ns = s, for a request that has a server already. */
    method SetServer(r: Request, s: Server)
      requires Lists() && Served() && r in ns && s in servers
      modifies `ns
      ensures Lists() && Served() && ns == old(ns)[r := s]
    {
      ns := ns[r := s];
    }

    /** evdns_request_transmit; what the socket does with the packet is not determined. */
    method Transmit(r: Request) returns (out: Sending)
      requires Lists() && Served() && r in ns
      modifies `info, `choked, `up, `good, `ns, `servers
      ensures Lists() && Served() && ns.Keys == old(ns.Keys) && forall x :: x in servers <==> x in old(servers)
      ensures Transmitted(old(Net()), Net(), r, out, Flat(heads))
    {
      hide Lists, Served, FailedTo, WatchedIn;
      ghost var before := Net();
      info := info[r := InfoOf(r).(transmitMe := true)];
      ghost var marked := Net();
      if ns[r] in choked {
        return Choked;
      }
      var temporary, failed := *, *;
      if temporary {
        choked := choked + {ns[r]};
        return Blocked;
      }
      if failed {
        NameserverFailed(ns[r]);
        FailedFrom(before, marked, Net(), r, before.ns[r], Flat(heads));
      }
      info := info[r := InfoOf(r).(timing := true, txCount := InfoOf(r).txCount + 1, transmitMe := false)];
      return if failed then Failed else Sent;
    }

    /** evdns_transmit. */
    method TransmitAll()
      requires Lists() && Served() && Watched()
      modifies `info, `choked, `up, `good, `ns, `servers
      ensures Lists() && Served() && Watched() && ns.Keys == old(ns.Keys) && forall x :: x in servers <==> x in old(servers)
      ensures Onward(old(Net()), Net()) && AllTried(old(Net()), Net(), Flat(heads))
    {
      hide Lists, Served, Onward, Tried, WatchedIn;
      ghost var before := Net();
      NothingSent(before);
      UptoAll();
      FirstOf(0);
      for i := 0 to |reqHeads|
        invariant Lists() && Served() && ns.Keys == old(ns.Keys) && forall x :: x in servers <==> x in old(servers)
        invariant |reqHeads| == |heads| && Onward(before, Net()) && AllTried(before, Net(), Upto(i, 0))
      {
        TransmitList(i, before);
      }
      WatchedOnward(before, Net(), live, loose);
    }

    lemma NothingSent(t: Traffic)
      ensures Onward(t, t)
    {
    }

    method TransmitList(i: nat, ghost before: Traffic)
      requires Lists() && Served() && i < |reqHeads| == |heads|
      requires Onward(before, Net()) && AllTried(before, Net(), Upto(i, 0))
      modifies `info, `choked, `up, `good, `ns, `servers
      ensures Lists() && Served() && ns.Keys == old(ns.Keys) && forall x :: x in servers <==> x in old(servers)
      ensures Onward(before, Net()) && AllTried(before, Net(), Upto(i + 1, 0))
    {
      hide Lists, Served, Onward, Tried, WatchedIn;
      FirstOf(i);
      if reqHeads[i].Some? {
        var startedAt := reqHeads[i].value;
        var req := startedAt;
        ghost var k := 0;
        while true
          invariant Lists() && Served() && ns.Keys == old(ns.Keys) && forall x :: x in servers <==> x in old(servers)
          invariant k < |heads[i]| && req == heads[i][k] && Onward(before, Net()) && AllTried(before, Net(), Upto(i, k))
          decreases |heads[i]| - k
        {
          NextOf(i, k);
          ReachNext(i, k);
          TransmitMarked(req, before, Upto(i, k));
          req := links.next[req];
          k := k + 1;
          if req == startedAt {
            break;
          }
        }
      }
      UptoRow(i);
    }

    method TransmitMarked(r: Request, ghost before: Traffic, ghost reqs: seq<Request>)
      requires Lists() && Served() && r in ns && r !in reqs
      requires Onward(before, Net()) && AllTried(before, Net(), reqs)
      modifies `info, `choked, `up, `good, `ns, `servers
      ensures Lists() && Served() && ns.Keys == old(ns.Keys) && forall x :: x in servers <==> x in old(servers)
      ensures Onward(before, Net()) && AllTried(before, Net(), reqs + [r])
    {
      hide Lists, Served, Onward, Transmitted, WatchedIn;
      if InfoOf(r).transmitMe {
        ghost var t := Net();
        var out := Transmit(r);
        OnwardStep(before, t, Net(), r, out, Flat(heads));
      }
    }

    /** nameserver_ready_callback, where the socket can be written: what is marked goes out. */
    method ServerReady(s: Server)
      requires Quiet()
      modifies `info, `choked, `up, `good, `ns, `servers
      ensures Quiet() && Book() == old(Book())
      ensures Onward(old(Net()).(choked := old(choked) - {s}), Net()) && AllTried(old(Net()), Net(), Flat(heads))
    {
      hide Lists, Counts, Owned, Served, OneCall, Probed, Fresh, Onward, WatchedIn;
      choked := choked - {s};
      TransmitAll();
    }

    /** A changed ring leaves the other ones closed. */
    twostate lemma OthersClosed(l: seq<Request>)
      requires old(Rings()) && SameOutside(old(links), links, l) && reqHeads == old(reqHeads) && heads == old(heads)
      ensures forall i :: 0 <= i < |heads| && (forall x :: x in heads[i] ==> x !in l) ==> IsRing(heads[i], reqHeads[i], links)
      ensures waiting == old(waiting) && waitingHead == old(waitingHead) && (forall x :: x in waiting ==> x !in l) ==>
                IsRing(waiting, waitingHead, links)
    {
      forall i | 0 <= i < |heads| && (forall x :: x in heads[i] ==> x !in l) ensures IsRing(heads[i], reqHeads[i], links) {
        RingKept(heads[i], reqHeads[i], old(links), links, l);
      }
      if waiting == old(waiting) && waitingHead == old(waitingHead) && (forall x :: x in waiting ==> x !in l) {
        RingKept(waiting, waitingHead, old(links), links, l);
      }
    }

    /** evdns_request_insert at the tail of the list of its bucket. */
    method InsertInflight(r: Request)
      requires Lists() && Counts() && r in loose && r in ns
      modifies `heads, `reqHeads, `links, `inflight, `loose
      ensures Lists() && Counts() && loose == old(loose) - {r} && inflight == old(inflight) + 1 && |heads| == |reqHeads| == |old(heads)|
      ensures reqHeads != [] && heads == old(heads)[Bucket(r) := old(heads)[Bucket(r)] + [r]]
    {
      hide IsRing, SameOutside;
      var b := Bucket(r);
      var head;
      head, links := Insert(r, reqHeads[b], links, heads[b]);
      OthersClosed(heads[b] + [r]);
      AppendDistinct(heads[b], r);
      TotalChanged(heads, b, heads[b] + [r]);
      reqHeads, heads := reqHeads[b := head], heads[b := heads[b] + [r]];
      inflight := inflight + 1;
      loose := loose - {r};
    }

    /** evdns_request_insert at the tail of the waiting list. */
    method InsertWaiting(r: Request)
      requires Lists() && Counts() && r in loose && r !in ns
      modifies `waiting, `waitingHead, `links, `waitingCount, `loose
      ensures Lists() && Counts() && loose == old(loose) - {r} && waiting == old(waiting) + [r]
    {
      hide IsRing, SameOutside;
      var head;
      head, links := Insert(r, waitingHead, links, waiting);
      OthersClosed(waiting + [r]);
      AppendDistinct(waiting, r);
      waitingHead, waiting := head, waiting + [r];
      waitingCount := waitingCount + 1;
      loose := loose - {r};
    }

    /** evdns_request_remove from the list of its bucket. */
    method RemoveInflight(r: Request)
      requires Lists() && Counts() && r in live && r !in loose && r in ns
      modifies `heads, `reqHeads, `links, `inflight, `loose
      ensures Lists() && Counts() && loose == old(loose) + {r} && inflight == old(inflight) - 1 && |heads| == |reqHeads| == |old(heads)|
      ensures reqHeads != [] && heads == old(heads)[Bucket(r) := Remove(old(heads)[Bucket(r)], r)]
    {
      hide IsRing, SameOutside;
      var b := Bucket(r);
      assert r in heads[b];
      var head;
      head, links := Unlink(r, reqHeads[b], links, heads[b]);
      OthersClosed(heads[b]);
      RemoveDistinct(heads[b], r);
      TotalChanged(heads, b, Remove(heads[b], r));
      reqHeads, heads := reqHeads[b := head], heads[b := Remove(heads[b], r)];
      inflight := inflight - 1;
      loose := loose + {r};
    }

    /** evdns_request_remove from the waiting list. */
    method RemoveWaiting(r: Request)
      requires Lists() && Counts() && r in live && r !in loose && r !in ns
      modifies `waiting, `waitingHead, `links, `waitingCount, `loose
      ensures Lists() && Counts() && loose == old(loose) + {r} && waiting == Remove(old(waiting), r)
    {
      hide IsRing, SameOutside;
      var head;
      head, links := Unlink(r, waitingHead, links, waiting);
      OthersClosed(waiting);
      RemoveDistinct(waiting, r);
      waitingHead, waiting := head, Remove(waiting, r);
      waitingCount := waitingCount - 1;
      loose := loose + {r};
    }

    /** The nameserver and the transaction id of a request that is in no list. */
    method Assign(r: Request, s: Server, id: nat)
      requires Lists() && Served() && r in loose && s in servers
      modifies `ns, `transId
      ensures Lists() && Served() && ns == old(ns)[r := s] && transId == old(transId)[r := id]
    {
      ns := ns[r := s];
      transId := transId[r := id];
    }

    lemma FirstWaiting()
      requires Lists() && Counts() && waitingCount > 0
      ensures waiting != [] && waitingHead == Some(waiting[0])
      ensures var r := waiting[0]; r in live && r !in loose && r !in ns && Remove(waiting, r) == waiting[1..]
    {
      assert waiting[0] in waiting;
    }

    /** The first waiting request gets a server and an id, and goes inflight. */
    method Promote() returns (r: Request)
      requires Lists() && Counts() && Served() && waitingCount > 0
      modifies `waiting, `waitingHead, `waitingCount, `heads, `reqHeads, `links, `inflight, `loose, `transId, `ns, `servers
      ensures Lists() && Counts() && Served() && loose == old(loose) && forall x :: x in servers <==> x in old(servers)
      ensures old(waiting) != [] && r == old(waiting)[0] && waiting == old(waiting)[1..] && inflight == old(inflight) + 1
      ensures r !in old(ns) && r in ns && ns == old(ns)[r := ns[r]] && Picked(old(servers), up, ns[r], servers)
      ensures r in transId && transId == old(transId)[r := transId[r]] && |heads| == |reqHeads| == |old(heads)| && reqHeads != []
      ensures heads == old(heads)[Bucket(r) := old(heads)[Bucket(r)] + [r]]
    {
      hide Lists, Counts, Served, Picked, WatchedIn;
      FirstWaiting();
      r := waitingHead.value;
      RemoveWaiting(r);
      var s := NameserverPick();
      var id: nat := *;
      Assign(r, s, id);
      InsertInflight(r);
    }

    /** One turn of evdns_requests_pump_waiting_queue. */
    method PumpOne()
      requires Lists() && Counts() && Served() && Watched() && waitingCount > 0
      modifies `waiting, `waitingHead, `waitingCount, `heads, `reqHeads, `links, `inflight, `loose, `transId
      modifies `info, `choked, `up, `good, `ns, `servers
      ensures Lists() && Counts() && Served() && Watched() && loose == old(loose) && forall x :: x in servers <==> x in old(servers)
      ensures old(waiting) != [] && waiting == old(waiting)[1..] && inflight == old(inflight) + 1
      ensures old(waiting)[0] !in old(ns) && Pumping(old(Net()), Net(), [old(waiting)[0]])
    {
      hide Lists, Counts, Served, Transmitted, Onward, Picked, Pumping, WatchedIn;
      FirstWaiting();
      WatchedFresh(info, ns, live, loose, waiting[0]);
      ghost var a := Net();
      var r := Promote();
      ghost var b := Net();
      var out := Transmit(r);
      ghost var c := Net();
      WatchedSent(b, c, a.ns, r, out, Flat(heads), live, loose, loose);
      TransmitAll();
      PumpedOne(a, b, c, Net(), r, out, Flat(heads));
    }

    /** evdns_requests_pump_waiting_queue. */
    method Pump()
      requires Lists() && Counts() && Served() && Watched()
      modifies `waiting, `waitingHead, `waitingCount, `heads, `reqHeads, `links, `inflight, `loose, `transId
      modifies `info, `choked, `up, `good, `ns, `servers
      ensures Lists() && Counts() && Served() && Watched() && loose == old(loose) && forall x :: x in servers <==> x in old(servers)
      ensures Book() == Pumped(old(Book())) && Pumping(old(Net()), Net(), old(waiting)[..Room(old(Book()))])
    {
      hide Lists, Served, Watched, Pumping, WatchedIn;
      ghost var n := 0;
      NonePumped(Net());
      assert old(waiting)[0..] == old(waiting) && old(waiting)[..0] == [];
      while inflight < maxInflight && waitingCount > 0
        invariant Lists() && Counts() && Served() && Watched() && loose == old(loose) && forall x :: x in servers <==> x in old(servers)
        invariant n <= |old(waiting)| && waiting == old(waiting)[n..] && inflight == old(inflight) + n
        invariant n == 0 || old(inflight) + n <= maxInflight
        invariant Pumping(old(Net()), Net(), old(waiting)[..n])
        decreases |waiting|
      {
        ghost var t, r := Net(), waiting[0];
        PumpOne();
        assert r !in old(waiting)[..n] by { PumpedFlying(old(Net()), t, old(waiting)[..n]); }
        PumpingMore(old(Net()), t, Net(), old(waiting)[..n], r);
        assert old(waiting)[..n + 1] == old(waiting)[..n] + [r];
        n := n + 1;
      }
      assert n == Room(old(Book()));
    }

    lemma NonePumped(t: Traffic)
      ensures Pumping(t, t, [])
    {
    }

    lemma PumpedFlying(t: Traffic, u: Traffic, promoted: seq<Request>)
      requires Pumping(t, u, promoted)
      ensures forall q :: q in promoted ==> q in u.ns
    {
    }

    /** request_new; `ok` is false where the name is too long. With no handle the caller will set one. */
    method RequestNew(h: Option<Handle>, name: Question, ok: bool) returns (r: Option<Request>)
      requires Valid() && loose == {} && (h.Some? ==> h.value in orphan)
      modifies `live, `ns, `transId, `owner, `info, `loose, `current, `orphan, `next, `servers, `question
      ensures Valid() && (r.Some? <==> ok)
      ensures !ok ==> live == old(live) && loose == {} && owner == old(owner) && current == old(current) && orphan == old(orphan)
      ensures ok ==> loose == {r.value} && r.value !in old(live) && r.value >= old(next) && live == old(live) + {r.value}
      ensures ok ==> if h.Some? then orphan == old(orphan) - {h.value} && owner == old(owner)[r.value := h.value] && current == old(current)[h.value := r.value]
                     else orphan == old(orphan) && owner == old(owner) && current == old(current) && r.value !in owner
      ensures (forall x :: x in servers <==> x in old(servers)) && info == if ok then old(info)[r.value := FreshInfo] else old(info)
      ensures question == if ok then old(question)[r.value := name] else old(question)
      ensures if ok && inflight < maxInflight
              then r.value in ns && ns == old(ns)[r.value := ns[r.value]] && Picked(old(servers), up, ns[r.value], servers)
              else ns == old(ns) && servers == old(servers) && (ok ==> r.value !in ns)
    {
      hide Lists, Counts, Served, OneCall, Owned, Fresh, Probed, Picked, WatchedIn;
      var issuing := inflight < maxInflight;
      var id: nat := *;
      if !issuing {
        id := 0xffff;
      }
      if !ok {
        return None;
      }
      var q := Allocate(id);
      question := question[q := name];
      if issuing {
        PickFor(q);
      }
      if h.Some? {
        Attach(q, h.value);
      }
      return Some(q);
    }

    /** mm_malloc of a request. */
    method Allocate(id: nat) returns (q: Request)
      requires Lists() && Owned() && Fresh() && Watched() && loose == {}
      modifies `live, `transId, `info, `loose, `next
      ensures Lists() && Owned() && Fresh() && Watched() && q == old(next) && q !in old(live) && live == old(live) + {q} && loose == {q} && q !in ns && q !in owner
      ensures info == old(info)[q := FreshInfo]
    {
      hide Lists, Owned, Fresh, WatchedIn;
      ghost var t := Net();
      q := next;
      NextIsNew();
      info := info[q := Info(0, 0, false, false)];
      SetId(q, id);
      AddLive(q);
      WatchedBut(q, t, Net(), old(live), live, {}, loose);
    }

    lemma NextIsNew()
      requires Fresh()
      ensures next !in live
    {
    }

    method SetId(q: Request, id: nat)
      requires Lists() && q !in live
      modifies `transId
      ensures Lists() && transId == old(transId)[q := id]
    {
      transId := transId[q := id];
    }

    method AddLive(q: Request)
      requires Lists() && Owned() && Fresh() && loose == {} && q == next && q in transId
      modifies `live, `loose, `next
      ensures Lists() && Owned() && Fresh() && live == old(live) + {q} && loose == {q} && next == old(next) + 1
      ensures q !in old(live) && q !in ns && q !in owner
    {
      live := live + {q};
      next := next + 1;
      loose := {q};
    }

    /** req->ns = nameserver_pick(base), for a request in no list. */
    method PickFor(q: Request)
      requires Lists() && Served() && Watched() && q in loose
      modifies `ns, `servers
      ensures Lists() && Served() && Watched() && forall x :: x in servers <==> x in old(servers)
      ensures q in ns && ns == old(ns)[q := ns[q]] && Picked(old(servers), up, ns[q], servers)
    {
      var s := NameserverPick();
      ns := ns[q := s];
    }

    /** req->handle = handle and handle->current_req = req. */
    method Attach(q: Request, h: Handle)
      requires Owned() && OneCall() && q in loose && q in live && q !in owner && h in orphan
      modifies `owner, `current, `orphan
      ensures Owned() && OneCall() && owner == old(owner)[q := h] && current == old(current)[h := q] && orphan == old(orphan) - {h}
    {
      owner := owner[q := h];
      current := current[h := q];
      orphan := orphan - {h};
    }

    /** request_submit. */
    method RequestSubmit(r: Request) returns (ghost out: Option<Sending>)
      requires Valid() && r in loose && r in owner
      modifies `waiting, `waitingHead, `waitingCount, `heads, `reqHeads, `links, `inflight, `loose
      modifies `info, `choked, `up, `good, `ns, `servers
      ensures Valid() && loose == old(loose) - {r} && forall x :: x in servers <==> x in old(servers)
      ensures ns.Keys == old(ns.Keys) && (out.Some? <==> r in ns) && r in transId && |heads| == |reqHeads| == |old(heads)| && reqHeads != []
      ensures waiting == if r in ns then old(waiting) else old(waiting) + [r]
      ensures inflight == if r in ns then old(inflight) + 1 else old(inflight)
      ensures r in ns ==> heads == old(heads)[Bucket(r) := old(heads)[Bucket(r)] + [r]]
      ensures if r in ns then Transmitted(old(Net()), Net(), r, out.value, Flat(heads)) else Net() == old(Net()) && heads == old(heads)
    {
      hide Lists, Counts, Served, OneCall, Probed, Fresh, Transmitted, WatchedIn;
      LooseFacts(r);
      ghost var t := Net();
      out := None;
      if r in ns {
        InsertInflight(r);
        var sent := Transmit(r);
        WatchedSent(t, Net(), t.ns, r, sent, Flat(heads), live, old(loose), loose);
        out := Some(sent);
      } else {
        InsertWaiting(r);
        WatchedListed(info, ns, live, old(loose), r);
      }
    }

    lemma LooseFacts(r: Request)
      requires Lists() && r in loose
      ensures r !in waiting && r in transId && |heads| == |reqHeads| && reqHeads != []
    {
    }

    /** reply_schedule_callback. */
    method ScheduleCallback(r: Request, cancelled: bool)
      requires Valid() && r in owner && r !in loose && owner[r] !in closing
      requires cancelled ==> forall s :: s in probe && s !in cancelling ==> probe[s] != owner[r]
      modifies `scheduled, `pending, `closing
      ensures Valid() && closing == old(closing) + {owner[r]} && Book() == Called(old(Book()), owner[r], cancelled)
    {
      hide Lists, Counts, Owned, Served, OneCall, Probed, Fresh, WatchedIn;
      OwnerFacts(r);
      PushCallback(owner[r], cancelled);
    }

    method PushCallback(h: Handle, cancelled: bool)
      requires OneCall() && Probed() && h in current && current.Keys <= handles && h !in closing && orphan !! current.Keys
      requires cancelled ==> forall s :: s in probe && s !in cancelling ==> probe[s] != h
      modifies `scheduled, `pending, `closing
      ensures OneCall() && Probed() && closing == old(closing) + {h} && scheduled == old(scheduled) + [Callback(h, cancelled)]
    {
      OwnersSnoc(scheduled, Callback(h, cancelled));
      AppendDistinct(Owners(scheduled), h);
      pending := pending + {h};
      scheduled := scheduled + [Callback(h, cancelled)];
      closing := closing + {h};
    }

    /** The handle of a finished request: its search is over. It is not freed before its callback has run: pending_cb is set. */
    method DetachFinished(r: Request)
      requires Owned() && OneCall() && r in loose && r in owner && owner[r] in closing
      modifies `owner, `current, `search, `closing
      ensures Owned() && OneCall() && owner == old(owner) - {r} && current == old(current) - {old(owner)[r]}
      ensures closing == old(closing) - {old(owner)[r]} && search == old(search)[old(owner)[r] := NoSearch]
    {
      var h := owner[r];
      search := search[h := NoSearch];
      if h !in pending {
        assert false;
      }
      current := current - {h};
      closing := closing - {h};
      owner := owner - {r};
    }

    /** The handle of a request that another one will follow. */
    method DetachForNext(r: Request)
      requires Owned() && OneCall() && r in loose && r in owner && owner[r] !in closing
      modifies `owner, `current, `orphan
      ensures Owned() && OneCall() && owner == old(owner) - {r} && current == old(current) - {old(owner)[r]}
      ensures orphan == old(orphan) + {old(owner)[r]}
    {
      var h := owner[r];
      current := current - {h};
      orphan := orphan + {h};
      owner := owner - {r};
    }

    method ClearServer(r: Request)
      requires Lists() && Served() && r in loose
      modifies `ns
      ensures Lists() && Served() && ns == old(ns) - {r}
    {
      ns := ns - {r};
    }

    /** mm_free of a request. */
    method Free(r: Request)
      requires Lists() && Owned() && Fresh() && Served() && r in loose && r !in owner
      modifies `live, `ns, `transId, `info, `loose, `question
      ensures Lists() && Owned() && Fresh() && Served() && live == old(live) - {r} && loose == old(loose) - {r} && ns == old(ns) - {r}
      ensures info == old(info) - {r} && question == old(question) - {r}
    {
      hide Lists, Owned, Fresh, Served, WatchedIn;
      ClearServer(r);
      DropLive(r);
      DropId(r);
      info := info - {r};
      question := question - {r};
    }

    method DropLive(r: Request)
      requires Lists() && Owned() && Fresh() && r in loose && r !in ns && r !in owner
      modifies `live, `loose
      ensures Lists() && Owned() && Fresh() && live == old(live) - {r} && loose == old(loose) - {r}
    {
      live := live - {r};
      loose := loose - {r};
    }

    method DropId(r: Request)
      requires Lists() && r !in live
      modifies `transId
      ensures Lists()
    {
      transId := transId - {r};
    }

    /** evdns_request_remove from the list it is in. */
    method Unlist(r: Request)
      requires Lists() && Counts() && Owned() && r in live && r !in loose
      modifies `heads, `reqHeads, `links, `inflight, `waiting, `waitingHead, `waitingCount, `loose
      ensures Lists() && Counts() && Owned() && loose == old(loose) + {r}
      ensures waiting == Remove(old(waiting), r) && inflight == if r in old(waiting) then old(inflight) else old(inflight) - 1
    {
      hide Lists, Counts, WatchedIn;
      ListFacts(r);
      if r in ns {
        RemoveInflight(r);
      } else {
        RemoveWaiting(r);
      }
    }

    lemma ListFacts(r: Request)
      requires Lists() && r in live && r !in loose
      ensures r in ns <==> r !in waiting
      ensures r in ns ==> Remove(waiting, r) == waiting
    {
      if r in ns {
        RemoveNone(waiting, r);
      }
    }

    method Release(r: Request, freeHandle: bool)
      requires Lists() && Owned() && OneCall() && Probed() && Fresh() && Served() && r in loose && r in owner
      requires if freeHandle then owner[r] in closing else owner[r] !in closing
      modifies `owner, `current, `search, `closing, `orphan, `live, `ns, `transId, `info, `loose, `question
      ensures Lists() && Owned() && OneCall() && Probed() && Fresh() && Served() && Released(r, freeHandle)
      ensures ns == old(ns) - {r} && info == old(info) - {r}
      ensures loose == old(loose) - {r} && created == old(created) && done == old(done) && scheduled == old(scheduled)
    {
      hide Lists, Owned, OneCall, Probed, Fresh, Served, WatchedIn;
      if freeHandle {
        DetachFinished(r);
      } else {
        DetachForNext(r);
      }
      Free(r);
    }

    twostate predicate Released(r: Request, freeHandle: bool)
      requires r in old(owner)
      reads this
    {
      && current == old(current) - {old(owner)[r]} && live == old(live) - {r} && owner == old(owner) - {r}
      && (if freeHandle then closing == old(closing) - {old(owner)[r]} && orphan == old(orphan)
          else closing == old(closing) && orphan == old(orphan) + {old(owner)[r]})
      && handles == old(handles) && question == old(question) - {r}
      && search == if freeHandle then old(search)[old(owner)[r] := NoSearch] else old(search)
    }

    /** request_finished: the request leaves its list and is freed, and waiting ones may go out. */
    method RequestFinished(r: Request, freeHandle: bool)
      requires Valid() && r in live && r !in loose && r in owner
      requires if freeHandle then owner[r] in closing else owner[r] !in closing
      modifies `owner, `current, `search, `closing, `orphan, `live, `transId, `loose, `question
      modifies `heads, `reqHeads, `links, `inflight, `waiting, `waitingHead, `waitingCount, `info, `choked, `up, `good, `ns, `servers
      ensures Valid() && Released(r, freeHandle) && loose == old(loose)
      ensures forall x :: x in servers <==> x in old(servers)
      ensures var h := old(owner)[r]; h in old(current) && var b := Dropped(old(Book()), h);
              && Book() == (if freeHandle then Finished(old(Book()), h) else Pumped(b))
              && Pumping(Minus(old(Net()), r), Net(), b.waiting[..Room(b)])
    {
      hide Lists, Counts, Owned, Served, OneCall, Probed, Fresh, Pumping, WatchedIn, Dropped, Minus;
      Leave(r, freeHandle);
      label L:
      Pump();
      assert Owned() by { SameLoose@L(); }
    }

    /** The part of request_finished before the pump. */
    method Leave(r: Request, freeHandle: bool)
      requires Valid() && r in live && r !in loose && r in owner
      requires if freeHandle then owner[r] in closing else owner[r] !in closing
      modifies `owner, `current, `search, `closing, `orphan, `live, `transId, `loose, `question, `ns, `info
      modifies `heads, `reqHeads, `links, `inflight, `waiting, `waitingHead, `waitingCount
      ensures Valid() && Released(r, freeHandle) && loose == old(loose) && Net() == Minus(old(Net()), r)
      ensures var h := old(owner)[r]; h in old(current) && var b := Dropped(old(Book()), h);
              Book() == if freeHandle then b.(search := search) else b
    {
      hide Lists, Counts, Owned, Served, OneCall, Probed, Fresh, WatchedIn, Remove;
      OwnerFacts(r);
      Unlist(r);
      Release(r, freeHandle);
      WatchedBut(r, old(Net()), Net(), old(live), live, old(loose), loose);
    }

    twostate lemma SameLoose()
      requires old(Owned()) && loose == old(loose) && live == old(live) && owner == old(owner)
      requires handles == old(handles) && current == old(current)
      ensures Owned()
    {
    }

    lemma CurrentFacts(h: Handle)
      requires Owned() && OneCall() && h in current
      ensures current[h] in live && current[h] in owner && owner[current[h]] == h
      ensures h !in pending ==> h !in closing
    {
    }

    lemma PendingIs(h: Handle)
      requires OneCall()
      ensures h in pending <==> h in Owners(scheduled)
    {
    }

    /** Every request but the current one of h is as it was. */
    twostate predicate OthersKept(h: Handle)
      reads `owner
    {
      forall q :: q in old(owner) && old(owner)[q] != h ==> q in owner && owner[q] == old(owner)[q]
    }

    /** evdns_cancel_request: one callback, unless one is on its way. */
    method Cancel(h: Handle)
      requires Valid() && loose == {} && h in handles && forall s :: s in probe && s !in cancelling ==> probe[s] != h
      modifies `scheduled, `pending, `owner, `current, `search, `closing, `orphan, `live, `transId, `loose, `question
      modifies `heads, `reqHeads, `links, `inflight, `waiting, `waitingHead, `waitingCount, `info, `choked, `up, `good, `ns, `servers
      ensures Valid() && loose == {} && closing == old(closing) && orphan == old(orphan) && OthersKept(h)
      ensures Book() == Cancelled(old(Book()), Some(h)) && (Book() == old(Book()) ==> Net() == old(Net()))
      ensures up <= old(up) && (old(waiting) == [] ==> up == old(up))
      ensures forall x :: x in servers <==> x in old(servers)
    {
      hide Lists, Counts, Owned, OneCall, Served, Probed, Fresh, WatchedIn;
      PendingIs(h);
      if h !in current || h in pending {
        return;
      }
      CurrentFacts(h);
      var r := current[h];
      ScheduleCallback(r, true);
      RequestFinished(r, true);
    }

    /** The probe that nameserver_up cancels. */
    ghost function Rival(s: Server): Option<Handle>
      reads `up, `probe
    {
      if s !in up && s in probe then Some(probe[s]) else None
    }

    /** nameserver_up: the server's probe is not needed any more. */
    method NameserverUp(s: Server)
      requires Valid() && loose == {} && cancelling == {} && s in servers
      modifies `scheduled, `pending, `owner, `current, `search, `closing, `orphan, `live, `transId, `loose, `question, `probe, `timedout, `cancelling
      modifies `heads, `reqHeads, `links, `inflight, `waiting, `waitingHead, `waitingCount, `info, `choked, `up, `good, `ns, `servers
      ensures Valid() && loose == {} && cancelling == {} && closing == old(closing) && orphan == old(orphan)
      ensures probe == (if s in old(up) then old(probe) else old(probe) - {s}) && timedout == if s in old(up) then old(timedout) else old(timedout)[s := 0]
      ensures forall q :: q in old(owner) && (s in old(probe) ==> old(owner)[q] != old(probe)[s]) ==>
                q in owner && owner[q] == old(owner)[q]
      ensures Book() == Cancelled(old(Book()), old(Rival(s))) && (Book() == old(Book()) ==> Net() == old(Net()).(up := old(up) + {s}))
      ensures s in up && up <= old(up) + {s} && (old(waiting) == [] ==> up == old(up) + {s})
      ensures forall x :: x in servers <==> x in old(servers)
    {
      hide Lists, Counts, Owned, OneCall, Served, Probed, Fresh, WatchedIn;
      if s in up {
        return;
      }
      CancelProbe(s);
      MarkUp(s);
      timedout := timedout[s := 0];
    }

    /** The part of nameserver_up that is about the probe. */
    method CancelProbe(s: Server)
      requires Valid() && loose == {} && cancelling == {} && s !in up
      modifies `scheduled, `pending, `owner, `current, `search, `closing, `orphan, `live, `transId, `loose, `question, `probe, `cancelling
      modifies `heads, `reqHeads, `links, `inflight, `waiting, `waitingHead, `waitingCount, `info, `choked, `up, `good, `ns, `servers
      ensures Valid() && loose == {} && cancelling == {} && closing == old(closing) && orphan == old(orphan)
      ensures probe == old(probe) - {s} && up <= old(up) && (old(waiting) == [] ==> up == old(up))
      ensures forall q :: q in old(owner) && (s in old(probe) ==> old(owner)[q] != old(probe)[s]) ==>
                q in owner && owner[q] == old(owner)[q]
      ensures Book() == Cancelled(old(Book()), old(Rival(s))) && (Book() == old(Book()) ==> Net() == old(Net()))
      ensures forall x :: x in servers <==> x in old(servers)
    {
      hide Lists, Counts, Owned, OneCall, Served, Probed, Fresh, WatchedIn;
      if s in probe {
        BeginCancel(s);
        Cancel(probe[s]);
        EndCancel(s);
      }
    }

    ghost method BeginCancel(s: Server)
      requires Probed() && s in probe && cancelling == {}
      modifies `cancelling
      ensures Probed() && cancelling == {s} && probe[s] in handles && forall x :: x in probe && x != s ==> probe[x] != probe[s]
    {
      cancelling := {s};
    }

    /** ns->probe_request = NULL. */
    method EndCancel(s: Server)
      requires Probed() && cancelling == {s}
      modifies `probe, `cancelling
      ensures Probed() && cancelling == {} && probe == old(probe) - {s}
    {
      probe := probe - {s};
      cancelling := {};
    }

    method TakeProbe(s: Server) returns (h: Handle)
      requires Probed() && s in probe
      modifies `probe
      ensures Probed() && h == old(probe)[s] && probe == old(probe) - {s} && h in handles && forall x :: x in probe ==> probe[x] != h
    {
      h := probe[s];
      probe := probe - {s};
    }

    method MarkUp(s: Server)
      requires Served() && s in servers && s !in up
      modifies `up, `good
      ensures Served() && up == old(up) + {s}
    {
      up := up + {s};
      good := good + 1;
    }

    /** search_try_next: the next name of a search goes out under the same handle. `ok` is false where request_new fails. */
    method SearchTryNext(h: Handle, ok: bool) returns (issued: bool)
      requires Quiet() && h in current && h !in pending
      modifies `search, `owner, `current, `closing, `orphan, `live, `transId, `loose, `question, `next
      modifies `heads, `reqHeads, `links, `inflight, `waiting, `waitingHead, `waitingCount, `info, `choked, `up, `good, `ns, `servers
      ensures Quiet() && h in current && forall x :: x in servers <==> x in old(servers)
      ensures issued <==> ok && NextQuestion(SearchOf(old(search), h)).Some?
      ensures issued ==> current[h] !in old(live) && current[h] >= old(next) && Book() == AskedNext(old(Book()), h, current[h])
      ensures !issued ==> Net() == old(Net()) && owner == old(owner) && live == old(live)
      ensures !issued ==> Book() == old(Book()).(search := search) && search[h := NoSearch] == old(search)[h := NoSearch]
    {
      hide Lists, Counts, Owned, OneCall, Served, Probed, Fresh, Picked, WatchedIn, Submitted, Pumped, Dropped, AskedNext;
      ghost var b := Book();
      var s := SearchOf(search, h);
      if s.NoSearch? {
        return false;
      }
      search := search[h := s.(index := s.index + 1)];
      if s.index + 1 >= s.domains && !s.raw {
        return false;
      }
      CurrentFacts(h);
      var r := current[h];
      var q := RequestNew(None, if s.index + 1 >= s.domains then Raw else WithDomain(s.index + 1), ok);
      if q == None {
        return false;
      }
      if s.index + 1 >= s.domains {
        search := search[h := NoSearch];
      }
      NextIs(b, Book(), h, q.value);
      Follow(h, r, q.value);
      return true;
    }

    /** submit_next: the old request goes, and the new one is submitted under the handle. */
    method Follow(h: Handle, r: Request, q: Request)
      requires Valid() && loose == {q} && q in live && q !in owner && h in current && current[h] == r && closing == {} && orphan == {} && cancelling == {}
      requires r in live && r != q && r in owner && owner[r] == h && q in question
      modifies `search, `owner, `current, `closing, `orphan, `live, `transId, `loose, `question
      modifies `heads, `reqHeads, `links, `inflight, `waiting, `waitingHead, `waitingCount, `info, `choked, `up, `good, `ns, `servers
      ensures Quiet() && h in current && current[h] == q && forall x :: x in servers <==> x in old(servers)
      ensures Book() == Submitted(Pumped(Dropped(old(Book()), h)), h, q, old(question)[q], q in old(ns))
    {
      hide Lists, Counts, Owned, OneCall, Served, Probed, Fresh, WatchedIn, Submitted, Pumped, Pumping, Room, Remove, Minus;
      LooseFacts(q);
      NotPromoted(Book(), h, q);
      RequestFinished(r, false);
      var b := Dropped(old(Book()), h);
      StaysOut(old(Net()), r, Net(), q, b.waiting[..Room(b)]);
      HandOver(h, q);
    }

    method HandOver(h: Handle, q: Request)
      requires Valid() && loose == {q} && q in live && q !in owner && orphan == {h} && closing == {} && cancelling == {} && q in question
      modifies `owner, `current, `orphan, `loose
      modifies `heads, `reqHeads, `links, `inflight, `waiting, `waitingHead, `waitingCount, `info, `choked, `up, `good, `ns, `servers
      ensures Quiet() && h in current && current[h] == q && forall x :: x in servers <==> x in old(servers)
      ensures Book() == Submitted(old(Book()), h, q, question[q], q in old(ns))
    {
      hide Lists, Counts, Owned, OneCall, Served, Probed, Fresh, WatchedIn, Transmitted;
      assert question[q := question[q]] == question;
      Attach(q, h);
      var _ := RequestSubmit(q);
    }

    lemma InflightFacts(r: Request)
      requires Quiet() && r in ns
      ensures r in live && r in owner && owner[r] in current && current[owner[r]] == r && owner[r] !in pending
      ensures ns[r] in servers && forall h :: h in current && current[h] == r ==> h == owner[r]
    {
    }

    /** request_reissue: whether there was another server to try. */
    method RequestReissue(r: Request) returns (again: bool)
      requires Lists() && Served() && r in ns
      modifies `ns, `servers, `info
      ensures Lists() && Served() && ns.Keys == old(ns.Keys) && forall x :: x in servers <==> x in old(servers)
      ensures Reissued(old(Net()), Net(), r, again)
    {
      hide Lists, Served, Picked, WatchedIn;
      var last := ns[r];
      var s := NameserverPick();
      SetServer(r, s);
      if s == last {
        return false;
      }
      info := info[r := InfoOf(r).(reissues := InfoOf(r).reissues + 1, txCount := 0, transmitMe := true)];
      return true;
    }

    /** What an answer from s to a request of h does about the server and its probe. */
    twostate predicate TakenFor(s: Server, h: Handle)
      reads `probe, `timedout, `up
    {
      && probe == (if (s in old(probe) && old(probe)[s] == h) || s !in old(up) then old(probe) - {s} else old(probe))
      && timedout == (if s in old(up) then old(timedout) else old(timedout)[s := 0])
    }

    /** The probe of s that an answer to a request of h cancels. */
    ghost function RivalOf(s: Server, h: Handle): (g: Option<Handle>)
      ensures g != Some(h)
      reads `up, `probe
    {
      if Rival(s) == Some(h) then None else Rival(s)
    }

    /** The server of r has answered: it is up. If r is its probe, the probe is done. */
    method ServerAnswered(r: Request)
      requires Valid() && loose == {} && cancelling == {} && r in ns && r in owner && ns[r] in servers
      modifies `scheduled, `pending, `owner, `current, `search, `closing, `orphan, `live, `transId, `loose, `question, `probe, `timedout, `cancelling
      modifies `heads, `reqHeads, `links, `inflight, `waiting, `waitingHead, `waitingCount, `info, `choked, `up, `good, `ns, `servers
      ensures Valid() && loose == {} && cancelling == {} && closing == old(closing) && orphan == old(orphan)
      ensures r in owner && owner[r] == old(owner)[r] && TakenFor(old(ns)[r], owner[r])
      ensures Book() == Cancelled(old(Book()), old(RivalOf(ns[r], owner[r])))
      ensures var s := old(ns)[r]; s in up && up <= old(up) + {s} && (old(waiting) == [] ==> up == old(up) + {s})
    {
      hide Lists, Counts, Owned, OneCall, Served, Probed, Fresh, WatchedIn;
      var s := ns[r];
      if s in probe && probe[s] == owner[r] {
        var _ := TakeProbe(s);
      }
      assert old(probe) - {s} - {s} == old(probe) - {s};
      NameserverUp(s);
    }

    /** The callback of r is scheduled, and r is finished. */
    method PassUp(r: Request)
      requires Valid() && loose == {} && orphan == {} && closing == {} && cancelling == {} && r in live && r in owner
      modifies `scheduled, `pending, `owner, `current, `search, `closing, `orphan, `live, `transId, `loose, `question
      modifies `heads, `reqHeads, `links, `inflight, `waiting, `waitingHead, `waitingCount, `info, `choked, `up, `good, `ns, `servers
      ensures Quiet() && old(owner)[r] in old(current) && Book() == Closed(old(Book()), old(owner)[r], false)
      ensures up <= old(up) && (old(waiting) == [] ==> up == old(up))
    {
      hide Lists, Counts, Owned, OneCall, Served, Probed, Fresh, WatchedIn;
      ScheduleCallback(r, false);
      RequestFinished(r, true);
    }

    /** reply_handle for a good reply. */
    method ReplyOk(r: Request)
      requires Quiet() && r in ns
      modifies `scheduled, `pending, `owner, `current, `search, `closing, `orphan, `live, `transId, `loose, `question, `probe, `timedout, `cancelling
      modifies `heads, `reqHeads, `links, `inflight, `waiting, `waitingHead, `waitingCount, `info, `choked, `up, `good, `ns, `servers
      ensures Quiet() && r in old(owner) && old(owner)[r] in old(current)
      ensures var s, h := old(ns)[r], old(owner)[r];
              && Book() == Replied(old(Book()), h, old(RivalOf(s, h))) && TakenFor(s, h)
              && up <= old(up) + {s} && (old(waiting) == [] ==> up == old(up) + {s})
    {
      hide Lists, Counts, Owned, OneCall, Served, Probed, Fresh, WatchedIn;
      InflightFacts(r);
      ScheduleCallback(r, false);
      AnswerAndFinish(r);
    }

    method AnswerAndFinish(r: Request)
      requires Valid() && loose == {} && orphan == {} && cancelling == {} && r in ns && r in owner && closing == {owner[r]} && ns[r] in servers
      modifies `scheduled, `pending, `owner, `current, `search, `closing, `orphan, `live, `transId, `loose, `question, `probe, `timedout, `cancelling
      modifies `heads, `reqHeads, `links, `inflight, `waiting, `waitingHead, `waitingCount, `info, `choked, `up, `good, `ns, `servers
      ensures Quiet() && TakenFor(old(ns)[r], old(owner)[r])
      ensures var s, h := old(ns)[r], old(owner)[r]; var b := Cancelled(old(Book()), old(RivalOf(s, h)));
              && h in b.current && Book() == Finished(b, h)
              && up <= old(up) + {s} && (old(waiting) == [] ==> up == old(up) + {s})
    {
      hide Lists, Counts, Owned, OneCall, Served, Probed, Fresh, WatchedIn;
      ServerAnswered(r);
      NoneWaits(old(Book()), old(RivalOf(ns[r], owner[r])));
      assert old(waiting) == [] ==> waiting == [];
      OwnerFacts(r);
      FinishAlone(r);
    }

    /** request_finished; where none waits, nothing goes out. */
    method FinishAlone(r: Request)
      requires Valid() && r in live && r !in loose && r in owner && owner[r] in closing
      modifies `owner, `current, `search, `closing, `orphan, `live, `transId, `loose, `question
      modifies `heads, `reqHeads, `links, `inflight, `waiting, `waitingHead, `waitingCount, `info, `choked, `up, `good, `ns, `servers
      ensures Valid() && loose == old(loose) && closing == old(closing) - {old(owner)[r]} && orphan == old(orphan)
      ensures var h := old(owner)[r]; h in old(current) && Book() == Finished(old(Book()), h)
      ensures up <= old(up) && (old(waiting) == [] ==> up == old(up))
    {
      hide Lists, Counts, Owned, OneCall, Served, Probed, Fresh, WatchedIn;
      RequestFinished(r, true);
      assert old(waiting) == [] ==> Remove(old(waiting), r) == [];
    }

    lemma OwnerFacts(r: Request)
      requires Owned() && OneCall() && r in owner
      ensures r in live && owner[r] in current && current[owner[r]] == r
      ensures current.Keys <= handles && orphan !! current.Keys
    {
    }

    /** What an error tells about the server; `again` if the request goes to another one. */
    method JudgeServer(r: Request, reply: Reply) returns (again: bool, ghost mid: Traffic)
      requires Quiet() && r in ns && r in owner && ns[r] in servers
      modifies `scheduled, `pending, `owner, `current, `search, `closing, `orphan, `live, `transId, `loose, `question, `probe, `timedout, `cancelling
      modifies `heads, `reqHeads, `links, `inflight, `waiting, `waitingHead, `waitingCount, `info, `choked, `up, `good, `ns, `servers
      ensures Quiet() && r in owner && owner[r] == old(owner)[r]
      ensures again ==> reply == Refusal && old(InfoOf(r)).reissues < maxReissues
      ensures reply == Refusal && old(InfoOf(r)).reissues < maxReissues ==>
                FailedTo(old(Net()), mid, old(ns)[r], Flat(old(heads))) && r in mid.ns && Reissued(mid, Net(), r, again)
      ensures reply == ServerFailed || (reply == Refusal && old(InfoOf(r)).reissues >= maxReissues) ==> Net() == old(Net())
      ensures Book() == Judged(old(Book()), reply, old(RivalOf(ns[r], owner[r])))
      ensures var s := old(ns)[r];
              if reply == Refusal || reply == ServerFailed then probe == old(probe) && timedout == old(timedout)
              else TakenFor(s, owner[r]) && up <= old(up) + {s} && (old(waiting) == [] ==> up == old(up) + {s})
    {
      hide Lists, Counts, Owned, OneCall, Served, Probed, Fresh, FailedTo, Reissued, TakenFor, WatchedIn;
      again, mid := false, Net();
      if reply == Refusal {
        if InfoOf(r).reissues < maxReissues {
          NameserverFailed(ns[r]);
          mid := Net();
          again := RequestReissue(r);
          WatchedReissued(old(Net()), mid, Net(), r, again, old(ns)[r], Flat(heads), live, loose);
        }
      } else if reply != ServerFailed {
        ServerAnswered(r);
      }
    }

    /** reply_handle for an error. `ok` is false where the next name of a search is too long. */
    method ReplyError(r: Request, reply: Reply, isPtr: bool, ok: bool) returns (again: bool, issued: bool, ghost mid: Traffic)
      requires Quiet() && r in ns && reply != Answer
      modifies `scheduled, `pending, `owner, `current, `search, `closing, `orphan, `live, `transId, `loose, `question, `probe, `timedout, `cancelling, `next
      modifies `heads, `reqHeads, `links, `inflight, `waiting, `waitingHead, `waitingCount, `info, `choked, `up, `good, `ns, `servers
      ensures Quiet() && r in old(owner) && old(owner)[r] in old(current)
      ensures again ==> reply == Refusal && old(InfoOf(r)).reissues < maxReissues && Book() == old(Book())
      ensures reply == Refusal && old(InfoOf(r)).reissues < maxReissues ==> FailedTo(old(Net()), mid, old(ns)[r], Flat(old(heads))) && r in mid.ns
      ensures again ==> Reissued(mid, Net(), r, true)
      ensures reply == Refusal && old(InfoOf(r)).reissues < maxReissues && old(InfoOf(r)).txCount > 0 ==>
                |old(servers)| > 0 && (again <==> old(up) - {old(ns)[r]} != {} || old(servers)[1 % |old(servers)|] != old(ns)[r])
      ensures var h := old(owner)[r]; issued <==> !again && !isPtr && ok && NextQuestion(SearchOf(old(search), h)).Some?
      ensures var h := old(owner)[r]; var b := Judged(old(Book()), reply, old(RivalOf(ns[r], owner[r])));
              && h in b.current && SearchOf(b.search, h) == SearchOf(old(search), h)
              && (issued ==> h in current && current[h] !in old(live) && NextQuestion(SearchOf(b.search, h)).Some?
                             && Book() == AskedNext(b, h, current[h]))
              && (!again && !issued ==> Book() == Closed(b, h, false))
      ensures reply == OtherError ==> TakenFor(old(ns)[r], old(owner)[r])
      ensures reply != OtherError ==> probe == old(probe) && timedout == old(timedout)
    {
      hide Lists, Counts, Owned, OneCall, Served, Probed, Fresh, WatchedIn, FailedTo, Reissued, AskedNext, Closed, Cancelled, NextQuestion, Flat;
      InflightFacts(r);
      var h := owner[r];
      OwnerFacts(r);
      SomeServers();
      LiveBelow();
      ghost var t := Net();
      again, mid := JudgeServer(r, reply);
      if reply == Refusal && old(InfoOf(r)).reissues < maxReissues && old(InfoOf(r)).txCount > 0 {
        ReissuedIs(t, mid, Net(), r, again, Flat(old(heads)));
      }
      OthersStay(old(Book()), old(RivalOf(ns[r], owner[r])), h);
      issued := false;
      if !again {
        issued := NextNameOrFailure(r, isPtr, ok);
      }
    }

    lemma SomeServers()
      requires Served()
      ensures |servers| > 0
    {
    }

    lemma LiveBelow()
      requires Fresh()
      ensures forall q :: q in live ==> q < next
    {
    }

    /** The next name of the search goes out, or the failure is passed up. */
    method NextNameOrFailure(r: Request, isPtr: bool, ok: bool) returns (issued: bool)
      requires Quiet() && r in owner
      modifies `scheduled, `pending, `owner, `current, `search, `closing, `orphan, `live, `transId, `loose, `question, `next
      modifies `heads, `reqHeads, `links, `inflight, `waiting, `waitingHead, `waitingCount, `info, `choked, `up, `good, `ns, `servers
      ensures Quiet() && old(owner)[r] in old(current)
      ensures var h := old(owner)[r];
              && (issued <==> !isPtr && ok && NextQuestion(SearchOf(old(search), h)).Some?)
              && (if issued then h in current && current[h] >= old(next) && Book() == AskedNext(old(Book()), h, current[h])
                  else Book() == Closed(old(Book()), h, false))
    {
      hide Lists, Counts, Owned, OneCall, Served, Probed, Fresh, WatchedIn, AskedNext, Closed;
      OwnerFacts(r);
      NotPending(owner[r]);
      var h := owner[r];
      ghost var b := Book();
      issued := false;
      if !isPtr {
        issued := SearchTryNext(h, ok);
      }
      if !issued {
        EndsSearch(b, Book(), h);
        PassUp(r);
      }
    }

    lemma NotPending(h: Handle)
      requires Quiet() && h in current
      ensures h !in pending && h in handles && h !in Owners(scheduled)
    {
    }

    /** One more timeout of a server; after too many it counts as failed. */
    method CountTimeout(s: Server)
      requires Valid()
      modifies `timedout, `up, `good, `ns, `servers
      ensures Valid() && ns.Keys == old(ns.Keys)
      ensures var n := 1 + if s in old(timedout) then old(timedout)[s] else 0;
              && timedout == old(timedout)[s := if n > maxTimeouts then 0 else n]
              && if n > maxTimeouts then FailedTo(old(Net()), Net(), s, Flat(heads)) else Net() == old(Net())
    {
      hide Lists, Counts, Owned, OneCall, Served, Probed, Fresh, Turned, WatchedIn;
      timedout := timedout[s := 1 + if s in timedout then timedout[s] else 0];
      if timedout[s] > maxTimeouts {
        timedout := timedout[s := 0];
        NameserverFailed(s);
        WatchedElsewhere(info, old(ns), ns, live, loose);
      }
    }

    /** nameserver_read: a packet from a server takes back its timeouts. */
    method PacketFrom(s: Server)
      requires Quiet()
      modifies `timedout
      ensures Quiet() && timedout == old(timedout)[s := 0]
    {
      timedout := timedout[s := 0];
    }

    /** The next server in turn gets the request. */
    method Retransmit(r: Request) returns (out: Sending, ghost mid: Traffic)
      requires Lists() && Served() && r in ns
      modifies `info, `choked, `up, `good, `ns, `servers
      ensures Lists() && Served() && ns.Keys == old(ns.Keys) && forall x :: x in servers <==> x in old(servers)
      ensures RetriedTo(old(Net()), mid, Net(), r, out, Flat(heads))
    {
      hide Lists, Served, Picked, Transmitted, WatchedIn;
      info := info[r := InfoOf(r).(timing := false)];
      var picked := NameserverPick();
      SetServer(r, picked);
      mid := Net();
      out := Transmit(r);
    }

    /** evdns_request_timeout_callback. */
    method TimeoutCallback(r: Request) returns (ghost counted: Traffic, ghost mid: Traffic, ghost out: Sending)
      requires Quiet() && r in ns
      modifies `scheduled, `pending, `owner, `current, `search, `closing, `orphan, `live, `transId, `loose, `question, `timedout
      modifies `heads, `reqHeads, `links, `inflight, `waiting, `waitingHead, `waitingCount, `info, `choked, `up, `good, `ns, `servers
      ensures Quiet() && r in old(owner) && old(owner)[r] in old(current)
      ensures var s := old(ns)[r]; var n := 1 + if s in old(timedout) then old(timedout)[s] else 0;
              && timedout == old(timedout)[s := if n > maxTimeouts then 0 else n]
              && if n > maxTimeouts then FailedTo(old(Net()), counted, s, Flat(old(heads))) else counted == old(Net())
      ensures if old(InfoOf(r)).txCount >= maxRetransmits then Book() == Closed(old(Book()), old(owner)[r], false)
              else Book() == old(Book()) && heads == old(heads) && r in counted.ns && RetriedTo(counted, mid, Net(), r, out, Flat(heads))
    {
      hide Valid, Turned, RetriedTo;
      InflightFacts(r);
      CountTimeout(ns[r]);
      counted := Net();
      out, mid := GiveUpOrRetry(r);
    }

    method GiveUpOrRetry(r: Request) returns (ghost out: Sending, ghost mid: Traffic)
      requires Quiet() && r in ns && r in live && r in owner
      modifies `scheduled, `pending, `owner, `current, `search, `closing, `orphan, `live, `transId, `loose, `question
      modifies `heads, `reqHeads, `links, `inflight, `waiting, `waitingHead, `waitingCount, `info, `choked, `up, `good, `ns, `servers
      ensures Quiet() && old(owner)[r] in old(current)
      ensures if old(InfoOf(r)).txCount >= maxRetransmits then Book() == Closed(old(Book()), old(owner)[r], false)
              else Book() == old(Book()) && heads == old(heads) && RetriedTo(old(Net()), mid, Net(), r, out, Flat(heads))
    {
      hide Lists, Counts, Owned, OneCall, Served, Probed, Fresh, RetriedTo, WatchedIn;
      OwnerFacts(r);
      out, mid := Sent, Net();
      if InfoOf(r).txCount >= maxRetransmits {
        PassUp(r);
      } else {
        out, mid := Retransmit(r);
        WatchedRetried(old(Net()), mid, Net(), r, out, Flat(heads), live, loose);
      }
    }

    /** evdns_cancel_request, called by the program. */
    method CancelRequest(h: Handle)
      requires Quiet() && h in handles && h !in probeFor
      modifies `scheduled, `pending, `owner, `current, `search, `closing, `orphan, `live, `transId, `loose, `question
      modifies `heads, `reqHeads, `links, `inflight, `waiting, `waitingHead, `waitingCount, `info, `choked, `up, `good, `ns, `servers
      ensures Quiet() && Book() == if h in old(current) then Closed(old(Book()), h, true) else old(Book())
      ensures up <= old(up) && (old(waiting) == [] ==> up == old(up))
    {
      if h in current {
        NotPending(h);
      }
      Cancel(h);
    }

    /** Whether request r has been moved when the first i old lists, and k of the next one, are done. */
    ghost predicate Moved(r: Request, i: nat, k: nat)
      requires Members() && i <= |heads| && (i < |heads| ==> k <= |heads[i]|)
      reads `live, `ns, `transId, `heads, `waiting, `loose, `reqHeads
    {
      r in live && r !in loose && r in ns && (Bucket(r) < i || (Bucket(r) == i && r in heads[i][..k]))
    }

    lemma MovedOne(i: nat, k: nat)
      requires Members() && i < |heads| && k < |heads[i]|
      ensures !Moved(heads[i][k], i, k)
      ensures forall r :: Moved(r, i, k + 1) <==> Moved(r, i, k) || r == heads[i][k]
    {
      assert heads[i][k] in heads[i];
      DistinctPrefix(heads[i], k);
      assert heads[i][..k + 1] == heads[i][..k] + [heads[i][k]];
    }

    lemma NotMoved(i: nat, k: nat)
      requires Members() && i < |heads| && k <= |heads[i]|
      ensures forall x :: x in heads[i][k..] ==> !Moved(x, i, k) && x in ns && Bucket(x) == i
    {
      AllDifferent(heads[i]);
      forall x | x in heads[i][k..] ensures !Moved(x, i, k) && x in ns && Bucket(x) == i {
        assert x in heads[i];
      }
    }

    /** The new lists hold what has been moved. */
    ghost predicate Sorted(i: nat, k: nat, n: nat, newHeads: seq<seq<Request>>)
      reads `live, `ns, `transId, `heads, `waiting, `loose, `reqHeads
    {
      && Members() && i <= |heads| && (i < |heads| ==> k <= |heads[i]|) && n == |newHeads| && n > 0
      && (forall b, r {:trigger r in newHeads[b]} :: 0 <= b < n ==>
            (r in newHeads[b] <==> Moved(r, i, k) && transId[r] % n == b))
    }

    /** They but one, the old lists to come and the waiting list are closed. */
    ghost predicate AllClosed(i: nat, but: int, newReqHeads: seq<Option<Request>>, newHeads: seq<seq<Request>>, links: Links)
      reads `heads, `waiting, `reqHeads, `waitingHead
    {
      && |newReqHeads| == |newHeads| && |reqHeads| == |heads|
      && (forall b :: 0 <= b < |newHeads| && b != but ==> IsRing(newHeads[b], newReqHeads[b], links))
      && (forall j :: i < j < |heads| ==> IsRing(heads[j], reqHeads[j], links))
      && IsRing(waiting, waitingHead, links)
    }

    ghost predicate Elsewhere(x: Request, i: nat, but: int, newHeads: seq<seq<Request>>)
      reads `heads, `waiting
    {
      x !in waiting && (forall b :: 0 <= b < |newHeads| && b != but ==> x !in newHeads[b]) && forall j :: i < j < |heads| ==> x !in heads[j]
    }

    /** Work on a ring apart from all the others leaves them closed. */
    lemma ClosedApart(i: nat, but: int, newReqHeads: seq<Option<Request>>, newHeads: seq<seq<Request>>, a: Links, b: Links, l: seq<Request>)
      requires AllClosed(i, but, newReqHeads, newHeads, a) && SameOutside(a, b, l)
      requires forall x :: x in l ==> Elsewhere(x, i, but, newHeads)
      ensures AllClosed(i, but, newReqHeads, newHeads, b)
    {
      hide IsRing, SameOutside;
      forall c | 0 <= c < |newHeads| && c != but ensures IsRing(newHeads[c], newReqHeads[c], b) {
        RingKept(newHeads[c], newReqHeads[c], a, b, l);
      }
      forall j | i < j < |heads| ensures IsRing(heads[j], reqHeads[j], b) {
        RingKept(heads[j], reqHeads[j], a, b, l);
      }
      RingKept(waiting, waitingHead, a, b, l);
    }

    /** What is left of the list that is being moved is in none of the others. */
    lemma Unmoved(i: nat, k: nat, n: nat, newHeads: seq<seq<Request>>)
      requires Sorted(i, k, n, newHeads) && i < |heads|
      ensures forall x :: x in heads[i][k..] ==> x in transId && Elsewhere(x, i, -1, newHeads)
    {
      NotMoved(i, k);
      forall x | x in heads[i][k..] ensures x in transId && Elsewhere(x, i, -1, newHeads) {
        assert x in heads[i];
      }
    }

    /** What has been moved is in one new list, and in none of the old ones to come. */
    lemma MovedOnce(i: nat, k: nat, n: nat, newHeads: seq<seq<Request>>, b: nat)
      requires Sorted(i, k, n, newHeads) && i < |heads| && b < n
      ensures forall x :: x in newHeads[b] ==> Elsewhere(x, i, b, newHeads) && x !in heads[i][k..]
    {
      NotMoved(i, k);
    }

    /** One request goes from the head of its old list to the tail of its new one. */
    method MoveOne(ghost i: nat, ghost k: nat, n: nat, head: Option<Request>, newReqHeads: seq<Option<Request>>, ghost newHeads: seq<seq<Request>>)
        returns (head': Option<Request>, newReqHeads': seq<Option<Request>>, ghost newHeads': seq<seq<Request>>)
      requires Sorted(i, k, n, newHeads) && AllClosed(i, -1, newReqHeads, newHeads, links)
      requires i < |heads| && k < |heads[i]| && IsRing(heads[i][k..], head, links) && n == |newHeads| > 0
      modifies `links
      ensures Sorted(i, k + 1, n, newHeads') && AllClosed(i, -1, newReqHeads', newHeads', links)
      ensures IsRing(heads[i][k + 1..], head', links) && Total(newHeads') == Total(newHeads) + 1
    {
      hide Sorted, Members, Moved, Elsewhere, IsRing, SameOutside;
      ghost var l, links0 := heads[i][k..], links;
      var req := HeadOf(head, l);
      Unmoved(i, k, n, newHeads);
      assert l[0] in l;
      var b := transId[req] % n;
      head', links := Unlink(req, head, links, l);
      assert Remove(l, req) == heads[i][k + 1..];
      ClosedApart(i, -1, newReqHeads, newHeads, links0, links, l);
      ghost var links1 := links;
      var newHead;
      MovedOnce(i, k, n, newHeads, b);
      NotIn(i, k, n, newHeads, b);
      newHead, links := Insert(req, newReqHeads[b], links, newHeads[b]);
      RingKept(heads[i][k + 1..], head', links1, links, newHeads[b] + [req]);
      assert AllClosed(i, b, newReqHeads, newHeads, links1);
      ClosedApart(i, b, newReqHeads, newHeads, links1, links, newHeads[b] + [req]);
      newReqHeads', newHeads' := newReqHeads[b := newHead], newHeads[b := newHeads[b] + [req]];
      TotalChanged(newHeads, b, newHeads[b] + [req]);
      SortedNext(i, k, n, newHeads, b);
    }

    method HeadOf(head: Option<Request>, ghost l: seq<Request>) returns (r: Request)
      requires IsRing(l, head, links) && l != []
      ensures r == l[0] && r in l && head == Some(r)
    {
      r := head.value;
    }

    lemma NotIn(i: nat, k: nat, n: nat, newHeads: seq<seq<Request>>, b: nat)
      requires Sorted(i, k, n, newHeads) && i < |heads| && k < |heads[i]| && b < n
      ensures heads[i][k] !in newHeads[b] && heads[i][k] !in heads[i][k + 1..]
      ensures Elsewhere(heads[i][k], i, b, newHeads)
    {
      NotMoved(i, k);
      assert heads[i][k..][0] == heads[i][k] && heads[i][k] in heads[i];
      AllDifferent(heads[i]);
    }

    lemma SortedNext(i: nat, k: nat, n: nat, newHeads: seq<seq<Request>>, b: nat)
      requires Sorted(i, k, n, newHeads) && i < |heads| && k < |heads[i]| && heads[i][k] in transId && b == transId[heads[i][k]] % n
      ensures Sorted(i, k + 1, n, newHeads[b := newHeads[b] + [heads[i][k]]])
    {
      hide Members;
      MovedOne(i, k);
    }

    /** The loop of evdns_base_set_max_requests_inflight: every request goes to the list of its id. */
    method Rehash(n: nat) returns (newReqHeads: seq<Option<Request>>, ghost newHeads: seq<seq<Request>>)
      requires Lists() && n > 0
      modifies `links
      ensures Members() && AllClosed(|heads|, -1, newReqHeads, newHeads, links)
      ensures Sorted(|heads|, 0, n, newHeads) && Total(newHeads) == Total(heads) && |newHeads| == n
    {
      newReqHeads, newHeads := seq(n, _ => None), seq(n, _ => []);
      TotalZero(newHeads);
      for i := 0 to |reqHeads|
        modifies `links
        invariant Sorted(i, 0, n, newHeads) && AllClosed(i, -1, newReqHeads, newHeads, links)
        invariant i < |heads| ==> IsRing(heads[i], reqHeads[i], links)
        invariant Total(newHeads) == Total(heads[..i])
      {
        var head := reqHeads[i];
        ghost var k := 0;
        assert heads[i][0..] == heads[i];
        while head.Some?
          modifies `links
          invariant Sorted(i, k, n, newHeads) && AllClosed(i, -1, newReqHeads, newHeads, links)
          invariant IsRing(heads[i][k..], head, links) && Total(newHeads) == Total(heads[..i]) + k
          decreases |heads[i]| - k
        {
          assert heads[i][k..] != [];
          head, newReqHeads, newHeads := MoveOne(i, k, n, head, newReqHeads, newHeads);
          k := k + 1;
        }
        RowMoved(i, n, newHeads);
        TotalSnoc(heads[..i], heads[i]);
        assert heads[..i + 1] == heads[..i] + [heads[i]];
      }
      assert heads[..|heads|] == heads;
    }

    lemma RowMoved(i: nat, n: nat, newHeads: seq<seq<Request>>)
      requires i < |heads| && Sorted(i, |heads[i]|, n, newHeads)
      ensures Sorted(i + 1, 0, n, newHeads)
    {
      assert heads[i][..|heads[i]|] == heads[i];
    }

    method NewLists(newReqHeads: seq<Option<Request>>, ghost newHeads: seq<seq<Request>>)
      requires Members() && AllClosed(|heads|, -1, newReqHeads, newHeads, links) && Sorted(|heads|, 0, |newHeads|, newHeads)
      modifies `heads, `reqHeads
      ensures Lists() && heads == newHeads && reqHeads == newReqHeads
    {
      hide Linked;
      reqHeads, heads := newReqHeads, newHeads;
    }

    /** evdns_base_set_max_requests_inflight. */
    method SetMaxRequestsInflight(n: int)
      requires Quiet()
      modifies `heads, `reqHeads, `links, `maxInflight
      ensures Quiet() && Book() == old(Book()).(maxInflight := if n < 1 then 1 else n) && Net() == old(Net())
      ensures |heads| == |reqHeads| == (maxInflight + 4) / 5
    {
      hide Members, Sorted, Owned, OneCall, Served, Probed, Fresh, WatchedIn;
      var max := if n < 1 then 1 else n;
      var newReqHeads;
      ghost var newHeads;
      newReqHeads, newHeads := Rehash((max + 4) / 5);
      NewLists(newReqHeads, newHeads);
      maxInflight := max;
    }

    /** A handle is allocated; it has no request yet. */
    method NewHandle(s: Search) returns (h: Handle)
      requires Quiet()
      modifies `handles, `created, `orphan, `next, `search
      ensures Valid() && loose == {} && closing == {} && orphan == {h} && handles == old(handles) + {h} && h !in old(created)
      ensures h !in probeFor && h !in current && Book() == old(Book()).(created := old(created) + {h}, search := old(search)[h := s])
    {
      hide Lists, Counts, Owned, OneCall, Served, Probed, Fresh, WatchedIn;
      h := next;
      HandleIsNew(h);
      search := search[h := s];
      AddHandle(h);
    }

    method AddHandle(h: Handle)
      requires Owned() && OneCall() && Probed() && Fresh() && h == next && orphan == {} && closing == {}
      requires h !in handles && h !in created && h !in current && h !in Owners(scheduled) && h !in pending
      modifies `handles, `created, `orphan, `next
      ensures Owned() && OneCall() && Probed() && Fresh()
      ensures orphan == {h} && handles == old(handles) + {h} && created == old(created) + {h} && next == old(next) + 1
    {
      next := next + 1;
      handles, created, orphan := handles + {h}, created + {h}, {h};
    }

    lemma HandleIsNew(h: Handle)
      requires Quiet() && h == next
      ensures h !in created && h !in handles && h !in done && h !in current && h !in probeFor && h !in Owners(scheduled) && h !in pending
    {
    }

    /** evdns_base_resolve_ipv4 and its siblings: a handle, unless the name is too long. */
    method Resolve(domains: nat, manyDots: bool, ok: bool) returns (h: Option<Handle>)
      requires Quiet()
      modifies `handles, `created, `orphan, `next, `search, `live, `ns, `transId, `owner, `info, `loose, `current, `servers, `question
      modifies `heads, `reqHeads, `links, `inflight, `waiting, `waitingHead, `waitingCount, `choked, `up, `good
      ensures Quiet() && (h.Some? <==> ok)
      ensures if ok then && h.value !in old(created) && h.value in current && current[h.value] !in old(live)
                         && Book() == Asked(old(Book()), h.value, current[h.value], FirstSearch(domains, manyDots))
              else Book() == old(Book()) && Net() == old(Net())
      ensures up <= old(up)
    {
      hide Valid, Submitted;
      if !ok {
        return None;
      }
      var (first, search) := FirstSearch(domains, manyDots);
      var handle := NewHandle(search);
      Ask(handle, first);
      return Some(handle);
    }

    /** The first request of a handle. */
    method Ask(h: Handle, name: Question)
      requires Valid() && loose == {} && closing == {} && orphan == {h} && cancelling == {}
      modifies `orphan, `next, `live, `ns, `transId, `owner, `info, `loose, `current, `servers, `question
      modifies `heads, `reqHeads, `links, `inflight, `waiting, `waitingHead, `waitingCount, `choked, `up, `good
      ensures Quiet() && h in current && current[h] !in old(live) && up <= old(up)
      ensures Book() == Submitted(old(Book()), h, current[h], name, old(inflight) < maxInflight)
    {
      hide Valid, Picked, Transmitted;
      var r := RequestNew(Some(h), name, true);
      ghost var t := Net();
      ghost var out := RequestSubmit(r.value);
      UpShrinks(t, r.value, out);
    }

    lemma UpShrinks(t: Traffic, r: Request, out: Option<Sending>)
      requires r in t.ns ==> out.Some? && Transmitted(t, Net(), r, out.value, Flat(heads))
      requires r !in t.ns ==> Net() == t
      ensures up <= t.up
    {
      if r in t.ns {
        TransmittedIs(t, Net(), r, out.value, Flat(heads));
      }
    }

    /** nameserver_send_probe: the request goes inflight whatever the limit, to the server that is down. */
    method SendProbe(s: Server)
      requires Quiet() && s in servers
      modifies `handles, `created, `orphan, `next, `search, `live, `ns, `transId, `owner, `info, `loose, `current, `servers, `question
      modifies `heads, `reqHeads, `links, `inflight, `waiting, `waitingHead, `waitingCount, `choked, `up, `good, `probe, `probeFor
      ensures Quiet() && s in probe && probe == old(probe)[s := probe[s]] && probeFor == old(probeFor)[probe[s] := s] && up <= old(up)
      ensures probe[s] !in old(created) && probe[s] in current && current[probe[s]] !in old(live)
      ensures Book() == Probing(old(Book()), probe[s], current[probe[s]])
      ensures s !in old(up) ==> current[probe[s]] in ns && ns[current[probe[s]]] == s
    {
      hide Valid, Submitted;
      var h := NewHandle(NoSearch);
      MakeProbe(h, s);
      AskServer(h, s);
    }

    method AskServer(h: Handle, s: Server)
      requires Valid() && loose == {} && closing == {} && orphan == {h} && cancelling == {} && s in servers
      modifies `orphan, `next, `live, `ns, `transId, `owner, `info, `loose, `current, `servers, `question
      modifies `heads, `reqHeads, `links, `inflight, `waiting, `waitingHead, `waitingCount, `choked, `up, `good
      ensures Quiet() && h in current && current[h] !in old(live) && up <= old(up)
      ensures Book() == Submitted(old(Book()), h, current[h], Raw, true)
      ensures s !in old(up) ==> current[h] in ns && ns[current[h]] == s
    {
      hide Valid, Picked;
      var r := RequestNew(Some(h), Raw, true);
      SubmitProbe(r.value, s);
    }

    method SubmitProbe(r: Request, s: Server)
      requires Valid() && r in loose && r in owner && s in servers
      modifies `heads, `reqHeads, `links, `inflight, `waiting, `waitingHead, `waitingCount, `loose, `transId, `info, `choked, `up, `good, `ns, `servers
      ensures Valid() && loose == old(loose) - {r} && r in ns && up <= old(up) && inflight == old(inflight) + 1 && waiting == old(waiting)
      ensures s !in old(up) ==> ns[r] == s
    {
      hide Valid, Transmitted;
      SetProbeServer(r, s);
      ghost var t := Net();
      ghost var out := RequestSubmit(r);
      TransmittedIs(t, Net(), r, out.value, Flat(heads));
    }

    /** ns->probe_request = handle. */
    method MakeProbe(h: Handle, s: Server)
      requires Valid() && h in orphan && s in servers && h !in probeFor
      modifies `probe, `probeFor
      ensures Valid() && probe == old(probe)[s := h] && probeFor == old(probeFor)[h := s] && probeFor.Keys == old(probeFor).Keys + {h}
    {
      hide Lists, Counts, Owned, Fresh, WatchedIn;
      assert Callback(h, true) !in scheduled by {
        if Callback(h, true) in scheduled {
          OwnersHas(scheduled, Callback(h, true));
        }
      }
      probeFor := probeFor[h := s];
      probe := probe[s := h];
    }

    /** A new transaction id, and req->ns = ns. */
    method SetProbeServer(r: Request, s: Server)
      requires Valid() && r in loose && s in servers
      modifies `ns, `transId
      ensures Valid() && ns == old(ns)[r := s]
    {
      hide Lists, Counts, Owned, OneCall, Served, Probed, Fresh, WatchedIn;
      var id: nat := *;
      Assign(r, s, id);
      WatchedBut(r, old(Net()), Net(), live, live, loose, loose);
    }

    /**
     * event_process_deferred_callbacks takes up reply_run_callback: the callback of the first handle runs, and the
     * handle is freed. The callback of a probe, nameserver_probe_callback, tells whether its server is up.
     */
    method RunCallback(success: bool) returns (h: Handle)
      requires Quiet() && scheduled != []
      modifies `scheduled, `pending, `owner, `current, `search, `closing, `orphan, `live, `transId, `loose, `question, `probe, `timedout, `cancelling
      modifies `heads, `reqHeads, `links, `inflight, `waiting, `waitingHead, `waitingCount, `info, `choked, `up, `good, `ns, `servers, `handles, `done
      ensures Quiet() && h == old(scheduled)[0].handle && h !in old(done)
      ensures Book() == old(Book()).(scheduled := old(scheduled)[1..], done := old(done) + {h})
      ensures var probing := h in old(probeFor) && !old(scheduled)[0].cancelled;
              if probing then var s := old(probeFor)[h];
                && probe == old(probe) - {s} && timedout == (if success && s !in old(up) then old(timedout)[s := 0] else old(timedout))
                && Net() == if success then old(Net()).(up := old(up) + {s}) else old(Net())
              else probe == old(probe) && timedout == old(timedout) && Net() == old(Net())
    {
      hide Valid;
      FirstCallback();
      h := scheduled[0].handle;
      var probing := h in probeFor && !scheduled[0].cancelled;
      if probing {
        ForgetProbe(probeFor[h]);
        if success {
          NameserverUp(probeFor[h]);
        }
      }
      FreeHandle(h);
    }

    lemma FirstCallback()
      requires Quiet() && scheduled != []
      ensures scheduled[0].handle in probeFor ==> probeFor[scheduled[0].handle] in servers
      ensures forall s :: s in probe && probe[s] == scheduled[0].handle ==>
                scheduled[0].handle in probeFor && probeFor[scheduled[0].handle] == s && !scheduled[0].cancelled
    {
    }

    /** ns->probe_request = NULL. */
    method ForgetProbe(s: Server)
      requires Valid()
      modifies `probe
      ensures Valid() && probe == old(probe) - {s}
    {
      hide Lists, Counts, Owned, OneCall, Served, Fresh, WatchedIn;
      probe := probe - {s};
    }

    /** The callback leaves the queue, and its handle is freed. */
    method FreeHandle(h: Handle)
      requires Quiet() && scheduled != [] && h == scheduled[0].handle && forall s :: s in probe ==> probe[s] != h
      modifies `scheduled, `pending, `handles, `done
      ensures Quiet() && h !in handles && done == old(done) + {h} && h !in old(done) && scheduled == old(scheduled)[1..]
    {
      hide Lists, Counts, Owned, OneCall, Served, Probed, Fresh, WatchedIn;
      TakeCallback(h);
    }

    method TakeCallback(h: Handle)
      requires Owned() && OneCall() && Probed() && scheduled != [] && h == scheduled[0].handle && closing == {} && orphan == {}
      requires forall s :: s in probe ==> probe[s] != h
      modifies `scheduled, `pending, `handles, `done
      ensures Owned() && OneCall() && Probed()
      ensures h !in handles && done == old(done) + {h} && h !in old(done) && scheduled == old(scheduled)[1..]
    {
      assert Owners(scheduled) == [h] + Owners(scheduled[1..]) && h in Owners(scheduled);
      scheduled := scheduled[1..];
      pending, handles, done := pending - {h}, handles - {h}, done + {h};
    }
  }

  lemma {:induction false} DistinctPrefix(l: seq<Request>, k: nat)
    requires Distinct(l) && k < |l|
    ensures l[k] !in l[..k]
  {
    if k > 0 {
      DistinctPrefix(l[1..], k - 1);
      assert l[..k] == [l[0]] + l[1..][..k - 1];
    }
  }

  lemma {:induction false} OwnersHas(cbs: seq<Callback>, cb: Callback)
    requires cb in cbs
    ensures cb.handle in Owners(cbs)
  {
    if cb != cbs[0] {
      OwnersHas(cbs[1..], cb);
    }
  }
}
