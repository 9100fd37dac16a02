/** Conversion between user time units and simulator ticks; units are powers of ten in seconds. */
module Times {
  import opened Bits

  const TWO32 := 0x1_0000_0000
  const TWO64 := 0x1_0000_0000_0000_0000

  function Pow10(n: nat): (r: nat)
    ensures r > 0
  {
    if n == 0 then 1 else 10 * Pow10(n - 1)
  }

  /** The remainder is not affected by reducing a factor. */
  lemma MulMod(x: nat, m: nat)
    requires m > 0
    ensures (x % m) * 10 % m == x * 10 % m
  {
    var q, r := x / m, x % m;
    var a, b := r * 10 / m, r * 10 % m;
    Regroup(x, m, q, r, a, b);
    DivMod(x * 10, m, 10 * q + a, b);
  }

  lemma Regroup(x: nat, m: nat, q: nat, r: nat, a: nat, b: nat)
    requires x == m * q + r && r * 10 == m * a + b
    ensures x * 10 == m * (10 * q + a) + b
  {
    Distribute(m, 10 * q, a);
    assert m * (10 * q) == 10 * (m * q);
  }

  lemma Distribute(m: nat, a: nat, b: nat)
    ensures m * (a + b) == m * a + m * b
  {
  }

  function Up(x: nat, k: nat): (r: nat)
    ensures r < TWO64
  {
    x * Pow10(k) % TWO64
  }

  function Div(x: nat, d: nat): nat
    requires d > 0
  {
    x / d
  }

  function Down(x: nat, k: nat): nat {
    Div(x, Pow10(k))
  }

  /** The tick count a wait registers: scaled up with 64-bit wrap-around, or rounded down. */
  function Ticks(time: nat, exp: int, unit: int): nat {
    if exp >= unit then Up(time, exp - unit) else Down(time, unit - exp)
  }

  /** The time a tick count stands for, in the unit asked for. */
  function TimeOf(ticks: nat, exp: int, unit: int): nat {
    if exp <= unit then Up(ticks, unit - exp) else Down(ticks, exp - unit)
  }

  /** Division by ten, repeated. */
  lemma DivTenLast(x: nat, p: nat)
    requires p > 0
    ensures x / p / 10 == x / (10 * p)
  {
    var q, r := x / p, x % p;
    var a, b := q / 10, q % 10;
    TenTimes(p, a, b, r);
    DivMod(x, 10 * p, a, p * b + r);
  }

  lemma TenTimes(p: nat, a: nat, b: nat, r: nat)
    requires b < 10 && r < p
    ensures p * (10 * a + b) + r == (10 * p) * a + (p * b + r) && p * b + r < 10 * p
  {
    Distribute(p, 10 * a, b);
    assert p * (10 * a) == (10 * p) * a;
    MulMonotone(p, b, 9);
  }

  lemma Unscaled(x: nat)
    ensures Up(x, 0) == x % TWO64 && Down(x, 0) == x
  {
  }

  /** One round of the upward loops. */
  lemma UpStep(x: nat, k: nat)
    ensures Up(x, k + 1) == Up(x, k) * 10 % TWO64
  {
    var p := Pow10(k);
    MulMod(x * p, TWO64);
    assert x * p * 10 == x * (10 * p);
  }

  /** One round of the downward loops. */
  lemma DownStep(x: nat, k: nat)
    ensures Down(x, k + 1) == Down(x, k) / 10
  {
    DivTenLast(x, Pow10(k));
  }

  /** The scaling loops of `stimc_wait_time_int_exp` and the split of the result into two 32-bit halves. */
  method WaitTicks(time: nat, exp0: int, unit: int) returns (high: nat, low: nat)
    requires time < TWO64
    ensures high < TWO32 && low < TWO32 && high * TWO32 + low == Ticks(time, exp0, unit)
  {
    hide Up, Down;
    var ltime, exp := time, exp0;
    Unscaled(time);
    while exp > unit
      invariant exp <= exp0
      invariant if exp0 >= unit then unit <= exp && ltime == Up(time, exp0 - exp) else exp == exp0 && ltime == time
      decreases exp - unit
    {
      UpStep(time, exp0 - exp);
      ltime := ltime * 10 % TWO64;
      exp := exp - 1;
    }
    while exp < unit
      invariant if exp0 >= unit then exp == unit && ltime == Up(time, exp0 - unit)
                else exp0 <= exp <= unit && ltime == Down(time, exp - exp0)
      decreases unit - exp
    {
      DownStep(time, exp - exp0);
      ltime := ltime / 10;
      exp := exp + 1;
    }
    if exp0 < unit { DownFits(time, unit - exp0); }
    high, low := ltime / TWO32, ltime % TWO32;
  }

  lemma DownFits(x: nat, k: nat)
    ensures Down(x, k) <= x
  {
    hide Pow10;
    var p := Pow10(k);
    var q := x / p;
    assert x == p * q + x % p && p * q == q * p && q * 1 == q;
    MulMonotone(q, 1, p);
  }

  /** `stimc_time`, from the two halves the simulator delivers. */
  method CurrentTime(high: nat, low: nat, exp0: int, unit: int) returns (ltime: nat)
    requires high < TWO32 && low < TWO32
    ensures ltime == TimeOf(high * TWO32 + low, exp0, unit)
  {
    hide Up, Down;
    ghost var ticks := high * TWO32 + low;
    ltime := high * TWO32 + low;
    var exp := exp0;
    Unscaled(ticks);
    while exp < unit
      invariant exp0 <= exp
      invariant if exp0 <= unit then exp <= unit && ltime == Up(ticks, exp - exp0) else exp == exp0 && ltime == ticks
      decreases unit - exp
    {
      UpStep(ticks, exp - exp0);
      ltime := ltime * 10 % TWO64;
      exp := exp + 1;
    }
    while exp > unit
      invariant if exp0 <= unit then exp == unit && ltime == Up(ticks, unit - exp0)
                else unit <= exp <= exp0 && ltime == Down(ticks, exp0 - exp)
      decreases exp - unit
    {
      DownStep(ticks, exp0 - exp);
      ltime := ltime / 10;
      exp := exp - 1;
    }
  }

  /** The tick count of a wait, without the scaling functions: t units in ticks modulo 2^64, or the whole
      ticks that fit into t units. */
  lemma TicksOfWait(t: nat, exp: int, unit: int)
    ensures exp >= unit ==> SameMod64(Ticks(t, exp, unit), t * Pow10(exp - unit))
    ensures exp < unit ==>
      Ticks(t, exp, unit) * Pow10(unit - exp) <= t < (Ticks(t, exp, unit) + 1) * Pow10(unit - exp)
  {
    hide Pow10;
    if exp >= unit { Wrapped(t * Pow10(exp - unit)); } else { RoundedDown(t, Pow10(unit - exp)); }
  }

  /** The same for the time in a unit: the whole units that n ticks fill, or n ticks in units modulo 2^64. */
  lemma TimeOfTicks(n: nat, exp: int, unit: int)
    ensures exp <= unit ==> SameMod64(TimeOf(n, exp, unit), n * Pow10(unit - exp))
    ensures exp > unit ==>
      TimeOf(n, exp, unit) * Pow10(exp - unit) <= n < (TimeOf(n, exp, unit) + 1) * Pow10(exp - unit)
  {
    hide Pow10;
    if exp <= unit { Wrapped(n * Pow10(unit - exp)); } else { RoundedDown(n, Pow10(exp - unit)); }
  }

  /** r is x in 64 bits: x itself as long as that fits. */
  predicate SameMod64(r: nat, x: nat) {
    r < TWO64 && (x - r) % TWO64 == 0 && (x < TWO64 ==> r == x)
  }

  lemma Wrapped(x: nat)
    ensures SameMod64(x % TWO64, x)
  {
  }

  lemma RoundedDown(x: nat, d: nat)
    requires d > 0
    ensures Div(x, d) * d <= x < (Div(x, d) + 1) * d
  {
    assert x == d * (x / d) + x % d;
    Distribute(d, x / d, 1);
  }

  /** With ticks of a nanosecond and times in microseconds, and the other way round. */
  lemma Thousandfold(n: nat)
    ensures Ticks(n, -6, -9) == TimeOf(n, -9, -6) == n * 1000 % 0x1_0000_0000_0000_0000
    ensures Ticks(n, -9, -6) == TimeOf(n, -6, -9) == n / 1000
  {
    assert Pow10(3) == 10 * Pow10(2) && Pow10(2) == 10 * Pow10(1);
  }

  /** Waiting t units no finer than the simulator's, from any start, advances the time in that unit by
      exactly t, as long as no count leaves 64 bits. */
  lemma CoarseWaitIsExact(start: nat, t: nat, exp: int, unit: int)
    requires exp >= unit && start + t * Pow10(exp - unit) < TWO64
    ensures TimeOf(start + Ticks(t, exp, unit), exp, unit) == TimeOf(start, exp, unit) + t
  {
    var p := Pow10(exp - unit);
    CoarseWait(start, t, p);
    if exp == unit { assert Pow10(0) == 1; }
  }

  lemma CoarseWait(start: nat, t: nat, p: nat)
    requires p > 0 && start + t * p < TWO64
    ensures t * p % TWO64 == t * p && (start + t * p) / p == start / p + t
  {
    assert start == p * (start / p) + start % p;
    Distribute(p, start / p, t);
    DivMod(start + t * p, p, start / p + t, start % p);
  }

  /** Waiting t units finer than the simulator's is rounded down to whole ticks: the time advances by at
      most t, and by more than t minus one tick. */
  lemma FineWaitIsRoundedDown(start: nat, t: nat, exp: int, unit: int)
    requires exp < unit && (start + Ticks(t, exp, unit)) * Pow10(unit - exp) < TWO64
    ensures var advance := TimeOf(start + Ticks(t, exp, unit), exp, unit) - TimeOf(start, exp, unit);
      t - Pow10(unit - exp) < advance <= t
  {
    hide Up, Down, Pow10;
    UpIsExact(start, Ticks(t, exp, unit), unit - exp);
    DownBounds(t, unit - exp);
  }

  /** Scaling up a sum of tick counts that stays within 64 bits. */
  lemma UpIsExact(start: nat, q: nat, k: nat)
    requires (start + q) * Pow10(k) < TWO64
    ensures Up(start + q, k) - Up(start, k) == Pow10(k) * q
  {
    var p := Pow10(k);
    Distribute(p, start, q);
    assert (start + q) * p == p * (start + q) && start * p == p * start;
    FitsBelow(p * start, p * q);
  }

  lemma DownBounds(t: nat, k: nat)
    ensures t - Pow10(k) < Pow10(k) * Down(t, k) <= t
  {
  }

  lemma FitsBelow(a: nat, b: nat)
    requires a + b < TWO64
    ensures a % TWO64 == a && (a + b) % TWO64 == a + b
  {
  }
}
