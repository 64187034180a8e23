/** The retry policy's exponential backoff, in 64-bit nanoseconds. */
module Retry {
  import opened Int64
  import opened Wrappers

  datatype RetryPolicy = RetryPolicy(maxAttempts: int64, baseDelay: int64, maxDelay: int64)

  function Min(a: int, b: int): int {
    if a <= b then a else b
  }

  function Pow2(n: nat): (r: int)
    ensures r >= 1
  {
    if n == 0 then 1 else 2 * Pow2(n - 1)
  }

  function Attempts(attempt: int): (n: nat)
    ensures n >= 1
  {
    if attempt < 1 then 1 else attempt
  }

  /** What the policy promises: the base delay doubled per attempt, and never more than the limit. */
  function Ideal(base: int64, max: int64, attempt: int): int {
    if base <= 0 then 0 else Min(max, base * Pow2(Attempts(attempt) - 1))
  }

  // --- The loop -------------------------------------------------------------------------------

  /** At most `steps` doublings in 64 bits, stopping at the limit. */
  function Doubled(d: int64, max: int64, steps: nat): int64
    decreases steps
  {
    if steps == 0 || d >= max then d else Doubled(Wrap(d * 2), max, steps - 1)
  }

  function Unjittered(base: int64, max: int64, attempt: int): int64 {
    if base <= 0 then 0
    else
      var d := Doubled(base, max, Attempts(attempt) - 1);
      if d > max then max else d
  }

  /** A factor between 0.9 and 1.1, and truncation towards zero. */
  function Jittered(d: int64, draw: Option<real>): int {
    if draw.None? then d else Scaled(d, Factor(draw.value))
  }

  function Factor(draw: real): real {
    0.9 + 0.2 * draw
  }

  function Scaled(d: int, f: real): int {
    Truncated(d as real * f)
  }

  function Truncated(x: real): int {
    if x >= 0.0 then x.Floor else -((-x).Floor)
  }

  /** `draw` is what the policy's jitter function returns, if it has one. */
  method NextBackoff(p: RetryPolicy, attempt: int64, draw: Option<real>) returns (delay: int)
    ensures delay == Jittered(Unjittered(p.baseDelay, p.maxDelay, attempt), draw)
  {
    var n: int64 := attempt;
    if n < 1 {
      n := 1;
    }
    if p.baseDelay <= 0 {
      return 0;
    }
    var d: int64 := p.baseDelay;
    var i := 1;
    while i < n && d < p.maxDelay
      invariant 1 <= i <= n
      invariant Doubled(p.baseDelay, p.maxDelay, n - 1) == Doubled(d, p.maxDelay, n - i)
    {
      d := Wrap(d * 2);
      i := i + 1;
    }
    if d > p.maxDelay {
      d := p.maxDelay;
    }
    return Jittered(d, draw);
  }

  // --- When it keeps the promise ------------------------------------------------------------------

  /** The last doubling of d that still fits in 64 bits. */
  function Top(d: int64): (r: int64)
    requires d > 0
    ensures TWO_62 <= r
    decreases TWO_62 - d
  {
    if d >= TWO_62 then d else Top(d * 2)
  }

  function StepsToTop(d: int64): nat
    requires d > 0
    decreases TWO_62 - d
  {
    if d >= TWO_62 then 0 else 1 + StepsToTop(d * 2)
  }

  predicate Safe(base: int64, max: int64) {
    base <= 0 || max <= Top(base)
  }

  lemma {:induction false} ProductGrows(d: int, n: nat)
    requires d > 0
    ensures d * Pow2(n) >= d && (n > 0 ==> d * Pow2(n) == (d * 2) * Pow2(n - 1))
  {
    if n > 0 {
      ProductGrows(d, n - 1);
    }
  }

  lemma {:induction false} DoublesExactly(d: int64, max: int64, steps: nat)
    requires d > 0 && max <= Top(d)
    ensures Min(max, Doubled(d, max, steps)) == Min(max, d * Pow2(steps))
    decreases steps
  {
    ProductGrows(d, steps);
    if steps > 0 && d < max {
      DoublesExactly(d * 2, max, steps - 1);
    }
  }

  /** Past the last fitting doubling the product turns negative, which is below any such limit. */
  lemma {:induction false} DoublesPastTop(d: int64, max: int64)
    requires d > 0 && Top(d) < max
    ensures Doubled(d, max, StepsToTop(d)) == Top(d)
    ensures Doubled(d, max, StepsToTop(d) + 1) < 0
    decreases TWO_62 - d
  {
    TopGrows(d);
    if d < TWO_62 {
      DoublesPastTop(d * 2, max);
    } else {
      WrapsNegative(d);
      assert Doubled(d, max, 1) == Doubled(Wrap(d * 2), max, 0);
    }
  }

  lemma WrapsNegative(d: int64)
    requires TWO_62 <= d
    ensures Wrap(d * 2) == d * 2 - TWO_64 < 0
  {
    assert Fits(d);
    var r := d * 2 - TWO_63;
    assert 0 <= r < TWO_64 && d * 2 + TWO_63 == r + TWO_64;
  }

  lemma {:induction false} TopGrows(d: int64)
    requires d > 0
    ensures d <= Top(d)
    decreases TWO_62 - d
  {
    if d < TWO_62 {
      TopGrows(d * 2);
    }
  }

  lemma IdealIfSafe(base: int64, max: int64, attempt: int)
    requires Safe(base, max)
    ensures Unjittered(base, max, attempt) == Ideal(base, max, attempt)
  {
    if base > 0 {
      DoublesExactly(base, max, Attempts(attempt) - 1);
    }
  }

  lemma UnsafeFalls(base: int64, max: int64) returns (attempt: int)
    requires !Safe(base, max)
    ensures attempt >= 1 && Unjittered(base, max, attempt) > 0 > Unjittered(base, max, attempt + 1)
    ensures Ideal(base, max, attempt + 1) > 0
  {
    DoublesPastTop(base, max);
    attempt := StepsToTop(base) + 1;
    ProductGrows(base, attempt);
  }

  /** The delay is min(MaxDelay, BaseDelay * 2^(attempt - 1)) for every attempt exactly when the limit
      does not exceed the last doubling of the base delay that fits; otherwise some attempt gets a
      negative delay. */
  lemma BackoffIsIdealIff(base: int64, max: int64)
    ensures (forall attempt :: Unjittered(base, max, attempt) == Ideal(base, max, attempt)) <==> Safe(base, max)
  {
    if Safe(base, max) {
      forall attempt
        ensures Unjittered(base, max, attempt) == Ideal(base, max, attempt)
      {
        IdealIfSafe(base, max, attempt);
      }
    } else {
      var attempt := UnsafeFalls(base, max);
      assert Unjittered(base, max, attempt + 1) != Ideal(base, max, attempt + 1);
    }
  }

  lemma {:induction false} PowersGrow(base: int, m: nat, n: nat)
    requires base > 0 && m <= n
    ensures base * Pow2(m) <= base * Pow2(n)
    decreases n
  {
    if m < n {
      PowersGrow(base, m, n - 1);
      assert base * Pow2(n) == 2 * (base * Pow2(n - 1));
    }
  }

  /** Later attempts never wait less, under exactly the same condition. */
  lemma BackoffIsMonotoneIff(base: int64, max: int64)
    ensures (forall m, n :: m <= n ==> Unjittered(base, max, m) <= Unjittered(base, max, n)) <==> Safe(base, max)
  {
    if Safe(base, max) {
      forall m, n | m <= n
        ensures Unjittered(base, max, m) <= Unjittered(base, max, n)
      {
        IdealIfSafe(base, max, m);
        IdealIfSafe(base, max, n);
        if base > 0 {
          PowersGrow(base, Attempts(m) - 1, Attempts(n) - 1);
        }
      }
    } else {
      var attempt := UnsafeFalls(base, max);
      assert Unjittered(base, max, attempt + 1) < Unjittered(base, max, attempt);
    }
  }

  /** A limit up to 2^62 is safe with any base delay, and no larger one is. */
  lemma AnyBaseIsSafeIff(max: int64)
    ensures (forall base: int64 :: Safe(base, max)) <==> max <= 0x4000_0000_0000_0000
  {
    assert Top(TWO_62) == TWO_62;
    if max > TWO_62 {
      assert !Safe(TWO_62, max);
    }
  }

  /** Attempt by attempt: the first delay is the base delay, each further one twice the one before, and none
      is over the limit. */
  lemma DelaysDouble(base: int64, max: int64, attempt: int)
    requires Safe(base, max) && base > 0 && max >= 0
    ensures attempt <= 1 ==> Unjittered(base, max, attempt) == if base <= max then base else max
    ensures attempt > 1 ==>
      var before := Unjittered(base, max, attempt - 1);
      Unjittered(base, max, attempt) == if before + before <= max then before + before else max
  {
    IdealIfSafe(base, max, attempt);
    if attempt <= 1 {
      PowerDoubles(base, 0);
    } else {
      IdealIfSafe(base, max, attempt - 1);
      PowerDoubles(base, attempt - 1);
    }
  }

  lemma PowerDoubles(base: int, n: nat)
    ensures base * Pow2(n) == if n == 0 then base else base * Pow2(n - 1) + base * Pow2(n - 1)
  {
  }

  // --- Jitter -----------------------------------------------------------------------------------

  lemma NonNegative(a: real, b: real)
    requires a >= 0.0 && b >= 0.0
    ensures a * b >= 0.0
  {
  }

  lemma ScaledWithinTenth(d: int, f: real)
    requires d >= 0 && 0.9 <= f <= 1.1
    ensures 9 * d < 10 * (Scaled(d, f) + 1) && 10 * Scaled(d, f) <= 11 * d
  {
    var y := d as real;
    var x := y * f;
    NonNegative(y, f - 0.9);
    NonNegative(y, 1.1 - f);
    assert x - y * 0.9 == y * (f - 0.9);
    assert y * 1.1 - x == y * (1.1 - f);
    FloorWithinTenth(d, x);
  }

  lemma FloorWithinTenth(d: int, x: real)
    requires 0.0 <= d as real * 0.9 <= x <= d as real * 1.1
    ensures 9 * d < 10 * (x.Floor + 1) && 10 * x.Floor <= 11 * d
  {
    var r := x.Floor;
    assert r as real <= x < (r + 1) as real;
    assert (9 * d) as real < (10 * (r + 1)) as real;
    assert (10 * r) as real <= (11 * d) as real;
  }

  lemma ScaledByOne(d: int)
    requires d >= 0
    ensures Scaled(d, 1.0) == d
  {
    assert d as real * 1.0 == d as real;
  }

  /** A draw in [0, 1] moves the delay by at most a tenth, up to the truncated fraction, and the default
      draw of one half does not move it. */
  lemma JitterWithinTenth(d: int64, draw: real)
    requires d >= 0 && 0.0 <= draw <= 1.0
    ensures 9 * d < 10 * (Jittered(d, Some(draw)) + 1) && 10 * Jittered(d, Some(draw)) <= 11 * d
    ensures draw == 0.5 ==> Jittered(d, Some(draw)) == d
  {
    ScaledWithinTenth(d, Factor(draw));
    if draw == 0.5 {
      assert Factor(draw) == 1.0;
      ScaledByOne(d);
    }
  }

  /** The jittered delay is the delay times a factor that goes from 0.9 to 1.1 with the draw, less its
      fraction. */
  lemma JitterIs(d: int64, draw: real)
    ensures var exact, r := d as real * (0.9 + draw / 5.0), Jittered(d, Some(draw));
      if exact >= 0.0 then r as real <= exact < (r + 1) as real else exact <= r as real < exact + 1.0
    ensures Jittered(d, None) == d
  {
    assert 0.9 + draw / 5.0 == Factor(draw);
    var exact := d as real * Factor(draw);
    if exact < 0.0 {
      var floor := (-exact).Floor;
      assert floor as real <= -exact < floor as real + 1.0;
      assert (-floor) as real == -(floor as real);
    }
  }
}
