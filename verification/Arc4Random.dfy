/** arc4random: the RC4 state, and numbers below a bound without bias. */
module Arc4Random {
  import opened Bytes

  const TWO32 := 0x1_0000_0000

  /** 0 to 255 in order. */
  function Identity(): seq<Byte>
  {
    seq(256, i requires 0 <= i < 256 => i)
  }

  /** The state array holds every byte once. */
  ghost predicate Permutation(s: seq<Byte>)
  {
    |s| == 256 && multiset(s) == multiset(Identity())
  }

  lemma EveryByteOnce(s: seq<Byte>, b: Byte)
    requires Permutation(s)
    ensures multiset(s)[b] == 1 && exists k :: 0 <= k < 256 && s[k] == b
  {
    assert Identity()[b] == b;
    assert b in multiset(Identity());
    OnceInIdentity(256, b);
    assert Identity()[..256] == Identity();
    assert b in multiset(s);
  }

  lemma {:induction false} OnceInIdentity(n: nat, b: Byte)
    requires n <= 256
    ensures multiset(Identity()[..n])[b] == if b < n then 1 else 0
  {
    if n > 0 {
      OnceInIdentity(n - 1, b);
      assert Identity()[..n] == Identity()[..n - 1] + [Identity()[n - 1]];
    }
  }

  function Swap(s: seq<Byte>, i: Byte, j: Byte): (r: seq<Byte>)
    requires |s| == 256
    ensures |r| == 256 && multiset(r) == multiset(s)
    ensures r[i] == s[j] && r[j] == s[i] && forall k :: 0 <= k < 256 && k != i && k != j ==> r[k] == s[k]
  {
    s[i := s[j]][j := s[i]]
  }

  /** The key over and over. */
  function KeyAt(key: seq<Byte>, n: nat): Byte
    requires key != []
  {
    key[n % |key|]
  }

  /** The key scheduling of RC4 from step n on: i and j with the key, s swapped 256 - n times. */
  function Schedule(s: seq<Byte>, i: Byte, j: Byte, key: seq<Byte>, n: nat): (r: seq<Byte>)
    requires |s| == 256 && key != [] && n <= 256
    ensures |r| == 256 && multiset(r) == multiset(s)
    decreases 256 - n
  {
    if n == 256 then s
    else
      var i1 := Plus(i, 1);
      var j1 := Plus(Plus(j, s[i1]), KeyAt(key, n));
      Schedule(Swap(s, i1, j1), i1, j1, key, n + 1)
  }

  datatype Rc4 = Rc4(s: seq<Byte>, i: Byte, j: Byte)

  /** One turn with a byte of the key. */
  ghost predicate KeyTurn(a: Rc4, b: Rc4, k: Byte)
  {
    && |a.s| == |b.s| == 256 && b.i == Plus(a.i, 1) && b.j == Plus(Plus(a.j, a.s[b.i]), k)
    && b.s[b.i] == a.s[b.j] && b.s[b.j] == a.s[b.i] && forall x :: 0 <= x < 256 && x != b.i && x != b.j ==> b.s[x] == a.s[x]
  }

  /** The key schedule is one turn for each place that is left, with the key over and over. */
  lemma {:induction false} ScheduleIs(s: seq<Byte>, i: Byte, j: Byte, key: seq<Byte>, n: nat) returns (run: seq<Rc4>)
    requires |s| == 256 && key != [] && n <= 256
    ensures |run| == 257 - n && run[0] == Rc4(s, i, j) && run[256 - n].s == Schedule(s, i, j, key, n)
    ensures forall m :: 0 <= m < 256 - n ==> KeyTurn(run[m], run[m + 1], KeyAt(key, n + m))
    decreases 256 - n
  {
    hide KeyTurn, KeyAt, Plus, Swap;
    if n == 256 {
      run := [Rc4(s, i, j)];
    } else {
      var i1 := Plus(i, 1);
      var j1 := Plus(Plus(j, s[i1]), KeyAt(key, n));
      var rest := ScheduleIs(Swap(s, i1, j1), i1, j1, key, n + 1);
      run := [Rc4(s, i, j)] + rest;
      OneTurn(s, i, j, KeyAt(key, n));
      forall m | 0 <= m < 256 - n ensures KeyTurn(run[m], run[m + 1], KeyAt(key, n + m)) {
        if m > 0 {
          assert run[m] == rest[m - 1] && run[m + 1] == rest[m] && n + m == n + 1 + (m - 1);
        }
      }
    }
  }

  lemma OneTurn(s: seq<Byte>, i: Byte, j: Byte, k: Byte)
    requires |s| == 256
    ensures var i1 := Plus(i, 1); var j1 := Plus(Plus(j, s[i1]), k);
            KeyTurn(Rc4(s, i, j), Rc4(Swap(s, i1, j1), i1, j1), k)
  {
  }

  lemma ScheduleStep(s: seq<Byte>, i: Byte, j: Byte, key: seq<Byte>, n: nat)
    requires |s| == 256 && key != [] && n < 256
    ensures var i1 := Plus(i, 1); var j1 := Plus(Plus(j, s[i1]), KeyAt(key, n));
            Schedule(s, i, j, key, n) == Schedule(Swap(s, i1, j1), i1, j1, key, n + 1)
  {
  }

  lemma ScheduleDone(s: seq<Byte>, i: Byte, j: Byte, key: seq<Byte>)
    requires |s| == 256 && key != []
    ensures Schedule(s, i, j, key, 256) == s
  {
  }

  /** Addition of unsigned chars. */
  function Plus(a: int, b: int): Byte
  {
    (a + b) % 256
  }

  lemma PlusTwice(a: int, b: int, c: int)
    ensures Plus(Plus(a, b), c) == Plus(a, b + c)
  {
  }

  lemma PlusRound(a: Byte)
    ensures Plus(a, 0) == a == Plus(a, 256) && Plus(a, -1) == Plus(a, 255)
  {
  }

  class Arc4 {
    var i: Byte
    var j: Byte
    var s: array<Byte>

    ghost predicate Valid()
      reads this, s
    {
      s.Length == 256 && Permutation(s[..])
    }

    /** arc4_init. */
    constructor ()
      ensures Valid() && fresh(s) && i == 0 && j == 0 && s[..] == Identity()
    {
      i, j := 0, 0;
      s := new Byte[256](n requires 0 <= n < 256 => n);
      new;
      assert s[..] == Identity();
    }

    /** rs.s[i] and rs.s[j] change places. */
    method SwapBytes(x: Byte, y: Byte)
      requires Valid()
      modifies s
      ensures Valid() && s[..] == Swap(old(s[..]), x, y)
    {
      var sx := s[x];
      s[x] := s[y];
      s[y] := sx;
      assert s[..] == Swap(old(s[..]), x, y);
    }

    /** arc4_getbyte: one step of RC4. */
    method GetByte() returns (b: Byte)
      requires Valid()
      modifies `i, `j, s
      ensures Valid() && i == Plus(old(i), 1) && j == Plus(old(j), old(s[..])[i])
      ensures s[..] == Swap(old(s[..]), i, j) && b == s[Plus(s[i], s[j])]
    {
      i := Plus(i, 1);
      var si := s[i];
      j := Plus(j, si);
      var sj := s[j];
      SwapBytes(i, j);
      b := s[Plus(si, sj)];
    }

    method MixOne(dat: seq<Byte>, n: nat)
      requires Valid() && dat != [] && n < 256
      modifies `i, `j, s
      ensures Valid() && i == Plus(old(i), 1)
      ensures Schedule(old(s[..]), old(i), old(j), dat, n) == Schedule(s[..], i, j, dat, n + 1)
    {
      hide Schedule, Permutation, Swap;
      ScheduleStep(s[..], i, j, dat, n);
      i := Plus(i, 1);
      var si := s[i];
      j := Plus(Plus(j, si), KeyAt(dat, n));
      SwapBytes(i, j);
    }

    /** arc4_addrandom: the key schedule goes on from the present state. */
    method AddRandom(dat: seq<Byte>)
      requires Valid() && dat != []
      modifies `i, `j, s
      ensures Valid() && s[..] == Schedule(old(s[..]), Plus(old(i), -1), old(j), dat, 0)
      ensures i == Plus(old(i), 255) && j == i
    {
      hide Schedule, Permutation, Swap, Plus;
      PlusRound(i);
      i := Plus(i, -1);
      ghost var i0 := i;
      PlusRound(i);
      for n := 0 to 256
        invariant Valid() && i == Plus(i0, n)
        invariant Schedule(old(s[..]), i0, old(j), dat, 0) == Schedule(s[..], i, j, dat, n)
      {
        MixOne(dat, n);
        PlusTwice(i0, n, 1);
      }
      ScheduleDone(s[..], i, j, dat);
      j := i;
    }
  }

  /** The computation of min in arc4random_uniform, on 32-bit words. */
  function Min32(upperBound: nat): nat
    requires 2 <= upperBound < TWO32
  {
    if upperBound > 0x8000_0000 then
      (1 + (TWO32 - 1 - upperBound)) % TWO32
    else
      ((0xffff_ffff - (upperBound * 2) % TWO32) + 1) % TWO32 % upperBound
  }

  /** It is the remainder of 2^32. */
  lemma MinIsRemainder(upperBound: nat)
    requires 2 <= upperBound < TWO32
    ensures Min32(upperBound) == TWO32 % upperBound
  {
    if upperBound > 0x8000_0000 {
      Remainder(TWO32, upperBound, 1, TWO32 - upperBound);
    } else if upperBound == 0x8000_0000 {
    } else {
      MinOfSmall(upperBound);
      LessTwice(TWO32, upperBound);
    }
  }

  /** Below 2^31 nothing wraps. */
  lemma MinOfSmall(upperBound: nat)
    requires 2 <= upperBound < 0x8000_0000
    ensures Min32(upperBound) == (TWO32 - 2 * upperBound) % upperBound
  {
    var a := 0xffff_ffff - (upperBound * 2) % TWO32 + 1;
    assert a == TWO32 - 2 * upperBound && a % TWO32 == a;
  }

  lemma LessTwice(t: nat, n: nat)
    requires 0 < 2 * n <= t
    ensures (t - 2 * n) % n == t % n
  {
    var q, r := t / n, t % n;
    assert t == q * n + r;
    assert (q - 2) * n == q * n - 2 * n;
    Remainder(t - 2 * n, n, q - 2, r);
  }

  lemma SmallMultiple(d: int, n: nat)
    requires d * n < n && d * n + n > 0
    ensures d == 0
  {
    assert d >= 1 ==> d * n >= n;
    assert d <= -1 ==> d * n + n <= 0;
  }

  lemma SameResidue(x: nat, y: nat, n: nat)
    requires n > 0 && x % n == y % n && x < y + n && y < x + n
    ensures x == y
  {
    var qx, qy := x / n, y / n;
    assert x == qx * n + x % n && y == qy * n + y % n;
    assert (qx - qy) * n == x - y;
    SmallMultiple(qx - qy, n);
  }

  lemma Remainder(a: int, n: nat, q: int, r: nat)
    requires a == q * n + r && r < n
    ensures a % n == r && a / n == q
  {
    assert a == (a / n) * n + a % n;
    assert (q - a / n) * n == a % n - r;
    SmallMultiple(q - a / n, n);
  }

  /** The draws from [lo, hi) that give result v. */
  ghost function Draws(lo: nat, hi: nat, upperBound: nat, v: nat): set<nat>
    requires upperBound > 0
  {
    set r: nat | lo <= r < hi && r % upperBound == v
  }

  /** upperBound draws in a row give each result once. */
  lemma OneInARow(lo: nat, upperBound: nat, v: nat) returns (x: nat)
    requires v < upperBound
    ensures Draws(lo, lo + upperBound, upperBound, v) == {x}
  {
    var q, r := lo / upperBound, lo % upperBound;
    assert lo == q * upperBound + r;
    x := if v >= r then q * upperBound + v else (q + 1) * upperBound + v;
    assert (q + 1) * upperBound == q * upperBound + upperBound;
    Remainder(x, upperBound, if v >= r then q else q + 1, v);
    forall y: nat | lo <= y < lo + upperBound && y % upperBound == v ensures y == x {
      SameResidue(x, y, upperBound);
    }
  }

  lemma {:induction false} EqualShares(lo: nat, k: nat, upperBound: nat, v: nat)
    requires v < upperBound
    ensures |Draws(lo, lo + k * upperBound, upperBound, v)| == k
  {
    if k == 0 {
      assert Draws(lo, lo, upperBound, v) == {};
    } else {
      EqualShares(lo, k - 1, upperBound, v);
      var mid := lo + (k - 1) * upperBound;
      assert lo + k * upperBound == mid + upperBound;
      var x := OneInARow(mid, upperBound, v);
      assert x in Draws(mid, mid + upperBound, upperBound, v);
      assert Draws(lo, mid + upperBound, upperBound, v) == Draws(lo, mid, upperBound, v) + Draws(mid, mid + upperBound, upperBound, v);
    }
  }

  /** Every result below the bound has the same number of accepted draws: the reduction is not biased. */
  lemma Unbiased(upperBound: nat, v: nat)
    requires 2 <= upperBound < TWO32 && v < upperBound
    ensures |Draws(Min32(upperBound), TWO32, upperBound, v)| == (TWO32 - Min32(upperBound)) / upperBound
    ensures 2 * Min32(upperBound) < TWO32
  {
    MinIsRemainder(upperBound);
    var q := TWO32 / upperBound;
    var min := Min32(upperBound);
    assert TWO32 == q * upperBound + min;
    Remainder(TWO32 - min, upperBound, q, 0);
    EqualShares(min, q, upperBound, v);
    assert q >= 1 by { SmallQuotient(upperBound); }
    assert q * upperBound >= upperBound;
  }

  lemma SmallQuotient(n: nat)
    requires 0 < n < TWO32
    ensures TWO32 / n >= 1
  {
  }

  /** arc4random_uniform on a run of draws, the last of which is the first that is accepted. */
  method Uniform(upperBound: nat, draws: seq<nat>) returns (r: nat)
    requires upperBound < TWO32 && forall k :: 0 <= k < |draws| ==> draws[k] < TWO32
    requires upperBound >= 2 ==> draws != [] && draws[|draws| - 1] >= TWO32 % upperBound
    ensures upperBound < 2 ==> r == 0
    ensures upperBound >= 2 ==> r < upperBound
    ensures upperBound >= 2 ==> exists k :: 0 <= k < |draws| && r == draws[k] % upperBound && draws[k] >= TWO32 % upperBound &&
                                  forall m :: 0 <= m < k ==> draws[m] < TWO32 % upperBound
  {
    if upperBound < 2 {
      return 0;
    }
    MinIsRemainder(upperBound);
    var min := Min32(upperBound);
    var k := 0;
    while draws[k] < min
      invariant k < |draws| && forall m :: 0 <= m < k ==> draws[m] < min
      decreases |draws| - k
    {
      k := k + 1;
    }
    r := draws[k] % upperBound;
  }
}
