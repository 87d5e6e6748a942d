/** The circular doubly linked lists of evdns: a head pointer, and a next and a prev in every member. */
module Rings {
  import opened Wrappers
  import opened TailQueues

  type Node = nat

  /** The next and prev fields; a null pointer is a missing key. */
  datatype Links = Links(next: map<Node, Node>, prev: map<Node, Node>)

  /** The members, from the head on. */
  ghost predicate IsRing(l: seq<Node>, head: Option<Node>, links: Links)
  {
    && Distinct(l) && head == (if l == [] then None else Some(l[0]))
    && forall i :: 0 <= i < |l| ==> Linked(l, i, links)
  }

  ghost predicate Linked(l: seq<Node>, i: nat, links: Links)
    requires i < |l|
  {
    && l[i] in links.next && links.next[l[i]] == l[After(i, |l|)]
    && l[After(i, |l|)] in links.prev && links.prev[l[After(i, |l|)]] == l[i]
  }

  function After(i: nat, n: nat): (k: nat)
    requires i < n
    ensures k < n
  {
    if i + 1 < n then i + 1 else 0
  }

  /** The fields of all but the members of l are as they were. */
  ghost predicate SameOutside(a: Links, b: Links, l: seq<Node>)
  {
    forall x :: x !in l ==>
      && (x in a.next <==> x in b.next) && (x in a.next ==> b.next[x] == a.next[x])
      && (x in a.prev <==> x in b.prev) && (x in a.prev ==> b.prev[x] == a.prev[x])
  }

  /** Work on one ring leaves the others alone. */
  lemma RingKept(l: seq<Node>, head: Option<Node>, a: Links, b: Links, other: seq<Node>)
    requires IsRing(l, head, a) && SameOutside(a, b, other) && forall x :: x in l ==> x !in other
    ensures IsRing(l, head, b)
  {
    forall i | 0 <= i < |l| ensures Linked(l, i, b) {
      assert Linked(l, i, a);
      assert l[i] in l && l[After(i, |l|)] in l;
    }
  }

  lemma {:induction false} DifferentAt(l: seq<Node>, i: nat, j: nat)
    requires Distinct(l) && i < j < |l|
    ensures l[i] != l[j]
  {
    if i > 0 {
      DifferentAt(l[1..], i - 1, j - 1);
    }
  }

  lemma AllDifferent(l: seq<Node>)
    requires Distinct(l)
    ensures forall i, j :: 0 <= i < j < |l| ==> l[i] != l[j]
  {
    forall i, j | 0 <= i < j < |l| ensures l[i] != l[j] {
      DifferentAt(l, i, j);
    }
  }

  lemma {:induction false} RemoveAt(l: seq<Node>, i: nat)
    requires Distinct(l) && i < |l|
    ensures Remove(l, l[i]) == l[..i] + l[i + 1..]
  {
    if i > 0 {
      DifferentAt(l, 0, i);
      RemoveAt(l[1..], i - 1);
      assert l[..i] == [l[0]] + l[1..][..i - 1];
    }
  }

  /** evdns_request_insert: at the tail. */
  method Insert(r: Node, head: Option<Node>, links: Links, ghost l: seq<Node>) returns (head': Option<Node>, links': Links)
    requires IsRing(l, head, links) && r !in l
    ensures IsRing(l + [r], head', links') && SameOutside(links, links', l + [r])
  {
    AppendDistinct(l, r);
    head', links' := head, links;
    if head == None {
      head' := Some(r);
      links' := Links(links'.next[r := r], links'.prev[r := r]);
      return;
    }
    var first := head.value;
    ghost var n := |l| - 1;
    assert Linked(l, n, links);
    links' := links'.(prev := links'.prev[r := links'.prev[first]]);
    links' := links'.(next := links'.next[links'.prev[r] := r]);
    links' := links'.(next := links'.next[r := first]);
    links' := links'.(prev := links'.prev[first := r]);
    AllDifferent(l);
    forall i | 0 <= i < |l + [r]| ensures Linked(l + [r], i, links') {
      if i < n {
        assert Linked(l, i, links);
      }
    }
  }

  /** evdns_request_remove. */
  method Unlink(r: Node, head: Option<Node>, links: Links, ghost l: seq<Node>) returns (head': Option<Node>, links': Links)
    requires IsRing(l, head, links) && r in l
    ensures IsRing(Remove(l, r), head', links') && SameOutside(links, links', l)
    ensures r !in links'.next && r !in links'.prev
  {
    hide Distinct, Remove;
    ghost var k :| 0 <= k < |l| && l[k] == r;
    ghost var m := Before(k, |l|);
    RemoveDistinct(l, r);
    RemoveAt(l, k);
    AllDifferent(l);
    assert Linked(l, k, links) && Linked(l, m, links);
    head', links' := head, links;
    if links.next[r] == r {
      head' := None;
    } else {
      links' := links'.(prev := links'.prev[links'.next[r] := links'.prev[r]]);
      links' := links'.(next := links'.next[links'.prev[r] := links'.next[r]]);
      if head' == Some(r) {
        head' := Some(links'.next[r]);
      }
    }
    links' := Links(links'.next - {r}, links'.prev - {r});
    ghost var rest := l[..k] + l[k + 1..];
    forall i | 0 <= i < |rest| ensures Linked(rest, i, links') {
      LinkedPast(l, k, links, links', i);
    }
  }

  lemma LinkedPast(l: seq<Node>, k: nat, a: Links, b: Links, i: nat)
    requires k < |l| && i < |l| - 1 && (forall i, j :: 0 <= i < j < |l| ==> l[i] != l[j]) && forall j :: 0 <= j < |l| ==> Linked(l, j, a)
    requires b.next == a.next[l[Before(k, |l|)] := l[After(k, |l|)]] - {l[k]}
    requires b.prev == a.prev[l[After(k, |l|)] := l[Before(k, |l|)]] - {l[k]}
    ensures Linked(l[..k] + l[k + 1..], i, b)
  {
    var rest := l[..k] + l[k + 1..];
    var j := if i < k then i else i + 1;
    var n := After(i, |rest|);
    var j' := if n < k then n else n + 1;
    assert Linked(l, j, a) && rest[i] == l[j] && rest[n] == l[j'];
  }

  function Before(i: nat, n: nat): (k: nat)
    requires i < n
    ensures k < n && After(k, n) == i
  {
    if i > 0 then i - 1 else n - 1
  }
}
