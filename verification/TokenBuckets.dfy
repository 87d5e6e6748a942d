/** Token buckets: how many bytes may move, by ticks of the clock. */
module TokenBuckets {

  datatype Dir = Read | Write

  /** A value for reading and one for writing. */
  datatype Both<T> = Both(read: T, write: T) {
    function At(d: Dir): T
    {
      if d == Read then read else write
    }

    function With(d: Dir, x: T): Both<T>
    {
      if d == Read then Both(x, write) else Both(read, x)
    }
  }

  const INT_MAX := 0x7fff_ffff
  const SSIZE_MAX := 0x7fff_ffff_ffff_ffff
  const SIZE_RANGE := 0x1_0000_0000_0000_0000

  /** ev_token_bucket_cfg_new gives no other configurations. */
  predicate CfgOk(rate: nat, maximum: nat)
  {
    1 <= rate <= maximum <= SSIZE_MAX
  }

  /** Ticks are counted modulo 2^32; half of the range counts as time gone back. */
  function TicksSince(last: nat, current: nat): (n: nat)
    ensures n <= INT_MAX
  {
    var n := (current - last) % 0x1_0000_0000;
    if n > INT_MAX then 0 else n
  }

  lemma TicksAdd(last: nat, n: nat)
    requires n <= INT_MAX
    ensures TicksSince(last, (last + n) % 0x1_0000_0000) == n
  {
    assert ((last + n) % 0x1_0000_0000 - last) % 0x1_0000_0000 == n % 0x1_0000_0000;
  }

  /** No time has passed at the same tick, nor where the clock has gone back. */
  lemma NoTicksBack(last: nat, n: nat)
    requires n <= INT_MAX + 1
    ensures n != 0 ==> TicksSince((last + n) % 0x1_0000_0000, last) == 0
    ensures TicksSince(last, last) == 0
  {
    if n != 0 {
      assert (last - (last + n) % 0x1_0000_0000) % 0x1_0000_0000 == 0x1_0000_0000 - n;
    }
  }

  /** Time that does not go back is counted whole. */
  lemma TicksForward(last: nat, current: nat)
    requires last <= current <= last + INT_MAX
    ensures TicksSince(last, current) == current - last
  {
  }

  function ToSigned(x: int): int
  {
    var y := x % SIZE_RANGE;
    if y > SSIZE_MAX then y - SIZE_RANGE else y
  }

  /** A limit is an ev_ssize_t. */
  predicate InRange(x: int)
  {
    -SSIZE_MAX - 1 <= x <= SSIZE_MAX
  }

  lemma ToSignedIs(x: int)
    ensures InRange(ToSigned(x)) && (InRange(x) ==> ToSigned(x) == x)
  {
    if 0 <= x <= SSIZE_MAX {
      assert x % SIZE_RANGE == x;
    } else if InRange(x) {
      assert x % SIZE_RANGE == x + SIZE_RANGE;
    }
  }

  /** One half of ev_token_bucket_update, in the machine's arithmetic. */
  function UpdateLimit(limit: int, rate: nat, maximum: nat, n: nat): int
  {
    if n == 0 then
      limit
    else if ((maximum - limit) % SIZE_RANGE) / n < rate then
      maximum
    else
      ToSigned(limit + n * rate)
  }

  function Min(a: int, b: int): int
  {
    if a < b then a else b
  }

  lemma DivLess(a: nat, n: nat, rate: nat)
    requires n > 0
    ensures a / n < rate <==> a < n * rate
  {
    assert a == n * (a / n) + a % n;
    if a / n < rate {
      assert n * (a / n + 1) <= n * rate;
    } else {
      assert n * rate <= n * (a / n);
    }
  }

  /** The update adds n ticks' worth and stops at the maximum, just when that much does not run past 2^64. */
  lemma UpdateExact(limit: int, rate: nat, maximum: nat, n: nat)
    requires CfgOk(rate, maximum) && InRange(limit) && 0 < n <= INT_MAX
    ensures UpdateLimit(limit, rate, maximum, n) == Min(maximum, limit + n * rate)
            <==> limit <= maximum || n * rate >= SIZE_RANGE - (limit - maximum)
  {
    var gap := (maximum - limit) % SIZE_RANGE;
    DivLess(gap, n, rate);
    assert n * rate >= 1;
    if limit <= maximum {
      assert gap == maximum - limit;
    } else {
      assert gap == SIZE_RANGE - (limit - maximum);
      if n * rate < gap {
        assert maximum < limit + n * rate < maximum + SIZE_RANGE;
        ToSignedMoves(limit + n * rate, maximum);
      } else if n * rate == gap {
        assert limit + n * rate == maximum + SIZE_RANGE;
      }
    }
  }

  lemma NoTicks(limit: int, rate: nat, maximum: nat)
    ensures UpdateLimit(limit, rate, maximum, 0) == limit
  {
  }

  lemma ToSignedMoves(x: int, m: nat)
    requires m < x < m + SIZE_RANGE && m <= SSIZE_MAX
    ensures ToSigned(x) != m
  {
  }

  lemma UpdateIsMin(limit: int, rate: nat, maximum: nat, n: nat)
    requires CfgOk(rate, maximum) && -SSIZE_MAX - 1 <= limit <= maximum && n <= INT_MAX
    ensures UpdateLimit(limit, rate, maximum, n) == Min(maximum, limit + n * rate)
    ensures limit <= UpdateLimit(limit, rate, maximum, n) <= maximum
  {
    if n > 0 {
      UpdateExact(limit, rate, maximum, n);
      assert n * rate >= 0;
    }
  }

  /** What becomes of a bucket that holds more than its maximum: it keeps growing, or wraps below zero. */
  lemma UpdateOver(limit: int, rate: nat, maximum: nat, n: nat)
    requires CfgOk(rate, maximum) && maximum < limit <= SSIZE_MAX && n <= INT_MAX
    ensures UpdateLimit(limit, rate, maximum, n)
            == if n * rate >= SIZE_RANGE - (limit - maximum) then maximum
               else if limit + n * rate <= SSIZE_MAX then limit + n * rate
               else limit + n * rate - SIZE_RANGE
  {
    if n > 0 {
      var gap := (maximum - limit) % SIZE_RANGE;
      assert gap == SIZE_RANGE - (limit - maximum);
      DivLess(gap, n, rate);
      assert n * rate >= 1;
    }
  }

  /** No update adds more than the ticks are worth. */
  lemma UpdateAdds(limit: int, rate: nat, maximum: nat, n: nat)
    requires CfgOk(rate, maximum) && InRange(limit) && n <= INT_MAX
    ensures InRange(UpdateLimit(limit, rate, maximum, n))
    ensures UpdateLimit(limit, rate, maximum, n) - limit <= n * rate
  {
    assert n * rate >= 0;
    if limit <= maximum {
      UpdateIsMin(limit, rate, maximum, n);
    } else {
      UpdateOver(limit, rate, maximum, n);
    }
  }

  /** A full bucket that is given one byte more gains a tick's worth with every tick, and at the end of the range it empties. */
  lemma OverfullGrows(rate: nat, maximum: nat)
    requires CfgOk(rate, maximum) && maximum + 1 + rate <= SSIZE_MAX
    ensures UpdateLimit(maximum + 1, rate, maximum, 1) == maximum + 1 + rate
    ensures UpdateLimit(SSIZE_MAX, 1, maximum, 1) == -SSIZE_MAX - 1
  {
    UpdateOver(maximum + 1, rate, maximum, 1);
    UpdateOver(SSIZE_MAX, 1, maximum, 1);
  }

  /** Updating twice is updating once for the time in all. */
  lemma UpdateTwice(limit: int, rate: nat, maximum: nat, n: nat, m: nat)
    requires CfgOk(rate, maximum) && -SSIZE_MAX - 1 <= limit <= maximum && n + m <= INT_MAX
    ensures UpdateLimit(UpdateLimit(limit, rate, maximum, n), rate, maximum, m) == UpdateLimit(limit, rate, maximum, n + m)
  {
    UpdateIsMin(limit, rate, maximum, n);
    UpdateIsMin(limit, rate, maximum, n + m);
    UpdateIsMin(UpdateLimit(limit, rate, maximum, n), rate, maximum, m);
    assert (n + m) * rate == n * rate + m * rate;
    assert m * rate >= 0;
  }
}
