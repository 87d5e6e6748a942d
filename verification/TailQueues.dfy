/** Lists without duplicates, as the TAILQ macros keep them. */
module TailQueues {

  ghost predicate Distinct<T>(l: seq<T>)
  {
    l == [] || (l[0] !in l[1..] && Distinct(l[1..]))
  }

  /** TAILQ_REMOVE. */
  function Remove<T(==)>(l: seq<T>, e: T): seq<T>
  {
    if l == [] then [] else if l[0] == e then l[1..] else [l[0]] + Remove(l[1..], e)
  }

  lemma {:induction false} RemoveDistinct<T>(l: seq<T>, e: T)
    requires Distinct(l) && e in l
    ensures Distinct(Remove(l, e)) && |Remove(l, e)| == |l| - 1
    ensures forall x :: x in Remove(l, e) <==> x in l && x != e
  {
    if l[0] != e {
      RemoveDistinct(l[1..], e);
      var r := [l[0]] + Remove(l[1..], e);
      assert r[1..] == Remove(l[1..], e);
    }
  }

  /** TAILQ_INSERT_TAIL. */
  lemma {:induction false} AppendDistinct<T>(l: seq<T>, e: T)
    requires Distinct(l) && e !in l
    ensures Distinct(l + [e])
  {
    if l != [] {
      AppendDistinct(l[1..], e);
      assert (l + [e])[1..] == l[1..] + [e];
    } else {
      assert ([e])[1..] == [];
    }
  }

  /** The number of members of a row of lists. */
  ghost function Total<T>(ls: seq<seq<T>>): nat
  {
    if ls == [] then 0 else |ls[0]| + Total(ls[1..])
  }

  lemma {:induction false} TotalChanged<T>(ls: seq<seq<T>>, i: nat, l: seq<T>)
    requires i < |ls|
    ensures Total(ls[i := l]) == Total(ls) - |ls[i]| + |l|
  {
    if i == 0 {
      assert ls[0 := l][1..] == ls[1..];
    } else {
      TotalChanged(ls[1..], i - 1, l);
      assert ls[i := l][1..] == ls[1..][i - 1 := l];
    }
  }

  lemma {:induction false} TotalZero<T>(ls: seq<seq<T>>)
    ensures Total(ls) == 0 <==> forall i :: 0 <= i < |ls| ==> ls[i] == []
  {
    if ls != [] {
      TotalZero(ls[1..]);
      assert forall i :: 0 <= i < |ls| ==> ls[i] == if i == 0 then ls[0] else ls[1..][i - 1];
      assert forall i :: 0 <= i < |ls[1..]| ==> ls[1..][i] == ls[i + 1];
    }
  }

  lemma {:induction false} TotalSnoc<T>(ls: seq<seq<T>>, l: seq<T>)
    ensures Total(ls + [l]) == Total(ls) + |l|
  {
    if ls != [] {
      TotalSnoc(ls[1..], l);
      assert (ls + [l])[1..] == ls[1..] + [l];
    } else {
      assert ([l])[1..] == [] && (ls + [l])[0] == l;
    }
  }
}
