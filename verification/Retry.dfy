/** pkg/retry/retry.go: backoff delays and the bounded retry loop.  Durations are nanoseconds in an int64. */
module Retry {
  import opened DagTypes

  const MAX_INT64: int := 0x7FFF_FFFF_FFFF_FFFF
  const MIN_INT64: int := -0x8000_0000_0000_0000

  datatype Strategy = Fixed | Exponential | Linear

  datatype Policy = Policy(
    maxRetries: int, initialBackoff: int, maxBackoff: int, backoffFactor: real, strategy: Strategy, jitter: bool,
    retryableCheck: Option<Option<string> -> bool>)

  // ---------------------------------------------------------------- Go's conversions

  predicate IsInt64(x: int) {
    MIN_INT64 <= x <= MAX_INT64
  }

  /** Conversion of a float to an integer drops the fraction ... */
  function Trunc(x: real): int {
    if x >= 0.0 then x.Floor else -(-x).Floor
  }

  /** ... and yields `overflow`, a value of the platform's choosing, when the result does not fit. */
  function ToDuration(x: real, overflow: int): int {
    if IsInt64(Trunc(x)) then Trunc(x) else overflow
  }

  /** int64 addition wraps around. */
  function Wrap(x: int): int {
    (x - MIN_INT64) % 0x1_0000_0000_0000_0000 + MIN_INT64
  }

  function Pow(b: real, n: nat): real {
    if n == 0 then 1.0 else b * Pow(b, n - 1)
  }

  function Product(x: real, y: real): real {
    x * y
  }

  // ---------------------------------------------------------------- Delay

  function Uncapped(p: Policy, attempt: nat, overflow: int): int {
    match p.strategy
    case Fixed => p.initialBackoff
    case Exponential => ToDuration(Product(p.initialBackoff as real, Pow(p.backoffFactor, attempt)), overflow)
    case Linear =>
      Wrap(p.initialBackoff +
           ToDuration(Product(Product(p.initialBackoff as real, p.backoffFactor), attempt as real), overflow))
  }

  function Capped(p: Policy, attempt: nat, overflow: int): int {
    var delay := Uncapped(p, attempt, overflow);
    if delay > p.maxBackoff then p.maxBackoff else delay
  }

  /** A delay moved by up to a quarter either way; `draw` is the random number from [0, 1). */
  function Jittered(delay: int, draw: real): real {
    var jitterRange := delay as real * 0.25;
    var jitter := draw * jitterRange * 2.0 - jitterRange;
    delay as real + jitter
  }

  function Delay(p: Policy, attempt: int, overflow: int, draw: real): int {
    if attempt < 0 then 0
    else
      var delay := Capped(p, attempt, overflow);
      if p.jitter && delay > 0 then
        var jittered := ToDuration(Jittered(delay, draw), overflow);
        if jittered < 0 then 0 else jittered
      else delay
  }

  /** What a policy is meant to have: durations that are not negative, and a factor that does not shrink delays. */
  predicate Sensible(p: Policy) {
    0 <= p.initialBackoff <= MAX_INT64 && 0 <= p.maxBackoff <= MAX_INT64 && p.backoffFactor >= 1.0
  }

  /** The delay as an unbounded number, before the cap. */
  function Ideal(p: Policy, attempt: nat): int {
    match p.strategy
    case Fixed => p.initialBackoff
    case Exponential => Trunc(Product(p.initialBackoff as real, Pow(p.backoffFactor, attempt)))
    case Linear =>
      p.initialBackoff + Trunc(Product(Product(p.initialBackoff as real, p.backoffFactor), attempt as real))
  }

  function Min(a: int, b: int): int {
    if a < b then a else b
  }

  lemma {:induction false} PowAtLeastOne(b: real, n: nat)
    requires b >= 1.0
    ensures Pow(b, n) >= 1.0
  {
    if n == 0 {
    } else {
      PowAtLeastOne(b, n - 1);
      assert (b - 1.0) * Pow(b, n - 1) >= 0.0;
    }
  }

  lemma ScaleMonotone(a: real, x: real, y: real)
    requires a >= 0.0 && x <= y
    ensures a * x <= a * y
  {
    assert a * (y - x) >= 0.0;
  }

  lemma PowGrows(b: real, n: nat)
    requires b >= 1.0
    ensures Pow(b, n) <= Pow(b, n + 1)
  {
    PowAtLeastOne(b, n);
    assert (b - 1.0) * Pow(b, n) >= 0.0;
  }

  lemma ProductGrows(a: real, x: real, y: real)
    requires a >= 0.0 && 0.0 <= x <= y
    ensures 0.0 <= Product(a, x) <= Product(a, y)
  {
    ScaleMonotone(a, 0.0, x);
    ScaleMonotone(a, x, y);
  }

  lemma TruncGrows(x: real, y: real)
    requires 0.0 <= x <= y
    ensures 0 <= Trunc(x) <= Trunc(y)
  {
    assert x.Floor <= y.Floor;
  }

  /** The ideal delay never shrinks from one attempt to the next, and is never negative. */
  lemma IdealGrows(p: Policy, n: nat)
    requires Sensible(p)
    ensures 0 <= Ideal(p, n) <= Ideal(p, n + 1)
  {
    hide Trunc, Pow, Product;
    match p.strategy
    case Fixed =>
    case Exponential =>
      PowAtLeastOne(p.backoffFactor, n);
      PowGrows(p.backoffFactor, n);
      ProductGrows(p.initialBackoff as real, Pow(p.backoffFactor, n), Pow(p.backoffFactor, n + 1));
      TruncGrows(Product(p.initialBackoff as real, Pow(p.backoffFactor, n)),
                 Product(p.initialBackoff as real, Pow(p.backoffFactor, n + 1)));
    case Linear =>
      ProductGrows(p.initialBackoff as real, 0.0, p.backoffFactor);
      var step := Product(p.initialBackoff as real, p.backoffFactor);
      ProductGrows(step, n as real, (n + 1) as real);
      TruncGrows(Product(step, n as real), Product(step, (n + 1) as real));
  }

  lemma {:induction false} IdealMonotone(p: Policy, m: nat, n: nat)
    requires Sensible(p) && m <= n
    ensures 0 <= Ideal(p, m) <= Ideal(p, n)
  {
    IdealGrows(p, n);
    if m == n {
    } else {
      IdealMonotone(p, m, n - 1);
      IdealGrows(p, n - 1);
    }
  }

  /** The delay before the cap fits in a Duration. */
  predicate Fits(p: Policy, attempt: nat) {
    Ideal(p, attempt) <= MAX_INT64
  }

  /**
   The cap works on every platform exactly when the uncapped delay fits.  Beyond that the conversion, or the sum, may
   come out negative, and a negative delay passes the cap.
   */
  lemma CapHoldsIffFits(p: Policy, n: nat)
    requires Sensible(p)
    ensures (forall overflow :: IsInt64(overflow) ==> Capped(p, n, overflow) == Min(p.maxBackoff, Ideal(p, n)))
            <==> Fits(p, n)
  {
    IdealMonotone(p, n, n);
    if Fits(p, n) {
      forall overflow | IsInt64(overflow) ensures Capped(p, n, overflow) == Min(p.maxBackoff, Ideal(p, n)) {
        FitsMeansIdeal(p, n, overflow);
      }
    } else {
      OverflowShows(p, n);
      var overflow := if p.strategy.Linear? then -1 - p.initialBackoff else MIN_INT64;
      assert IsInt64(overflow) && Capped(p, n, overflow) != Min(p.maxBackoff, Ideal(p, n));
    }
  }

  lemma LinearStep(p: Policy, n: nat)
    requires Sensible(p)
    ensures Trunc(Product(Product(p.initialBackoff as real, p.backoffFactor), n as real)) >= 0
  {
    ProductGrows(p.initialBackoff as real, 0.0, p.backoffFactor);
    ProductGrows(Product(p.initialBackoff as real, p.backoffFactor), 0.0, n as real);
  }

  lemma FitsMeansIdeal(p: Policy, n: nat, overflow: int)
    requires Sensible(p) && Fits(p, n)
    ensures Uncapped(p, n, overflow) == Ideal(p, n) >= 0
  {
    IdealMonotone(p, n, n);
    if p.strategy.Linear? {
      LinearStep(p, n);
    }
  }

  lemma OverflowShows(p: Policy, n: nat)
    requires Sensible(p) && !Fits(p, n)
    ensures p.strategy.Exponential? ==> Uncapped(p, n, MIN_INT64) < 0
    ensures p.strategy.Linear? ==> Uncapped(p, n, -1 - p.initialBackoff) < 0
    ensures !p.strategy.Fixed?
  {
    if p.strategy.Linear? {
      LinearStep(p, n);
    }
  }

  /** With a one-second start and factor 2 the 35th delay no longer fits and may come out negative. */
  lemma DelayMayGoNegative(maxBackoff: int)
    requires 0 <= maxBackoff <= MAX_INT64
    ensures var p := Policy(100, 1_000_000_000, maxBackoff, 2.0, Exponential, false, None);
            Sensible(p) && Delay(p, 34, MIN_INT64, 0.0) == MIN_INT64
  {
    var p := Policy(100, 1_000_000_000, maxBackoff, 2.0, Exponential, false, None);
    PowAdds(2.0, 17, 17);
    PowAdds(2.0, 8, 9);
    PowAdds(2.0, 4, 4);
    PowAdds(2.0, 4, 5);
    assert Pow(2.0, 4) == 16.0;
    assert Pow(2.0, 5) == 32.0;
    assert Pow(2.0, 17) == 131072.0;
    assert Pow(2.0, 34) == 17179869184.0;
  }

  lemma {:induction false} PowAdds(b: real, m: nat, n: nat)
    ensures Pow(b, m + n) == Pow(b, m) * Pow(b, n)
  {
    if m == 0 {
    } else {
      PowAdds(b, m - 1, n);
    }
  }

  /** While delays fit, they never decrease, never exceed the cap, and stay at the cap once they reach it. */
  lemma CappedMonotone(p: Policy, m: nat, n: nat, overflow: int)
    requires Sensible(p) && m <= n && Fits(p, n)
    ensures 0 <= Capped(p, m, overflow) <= Capped(p, n, overflow) <= p.maxBackoff
    ensures Capped(p, m, overflow) == p.maxBackoff ==> Capped(p, n, overflow) == p.maxBackoff
  {
    IdealMonotone(p, m, n);
    FitsMeansIdeal(p, m, overflow);
    FitsMeansIdeal(p, n, overflow);
  }

  /** Jitter moves a delay by at most a quarter either way (rounded down), so to at most 1.25 times the cap. */
  lemma JitterBounds(p: Policy, n: nat, overflow: int, draw: real)
    requires Sensible(p) && Fits(p, n) && 0.0 <= draw < 1.0 && 5 * p.maxBackoff <= 4 * MAX_INT64
    ensures var base, delay := Capped(p, n, overflow), Delay(p, n, overflow, draw);
            && 3 * base - 4 < 4 * delay <= 5 * base
            && 4 * delay <= 5 * p.maxBackoff
            && (!p.jitter ==> delay == base)
  {
    hide Jittered, Uncapped, Ideal, ToDuration;
    CappedMonotone(p, n, n, overflow);
    var base := Capped(p, n, overflow);
    if p.jitter && base > 0 {
      JitterRange(base, draw);
      Converted(base, Jittered(base, draw), overflow);
    }
  }

  /** A delay is negative exactly when the one before jitter is; jitter takes none below zero. */
  lemma DelayNegativeExactly(p: Policy, attempt: int, overflow: int, draw: real)
    ensures Delay(p, attempt, overflow, draw) < 0 <==> attempt >= 0 && Capped(p, attempt, overflow) < 0
    ensures attempt < 0 ==> Delay(p, attempt, overflow, draw) == 0
  {
  }

  lemma JitterRange(base: int, draw: real)
    requires base > 0 && 0.0 <= draw < 1.0
    ensures 3.0 * base as real <= 4.0 * Jittered(base, draw) < 5.0 * base as real
  {
    var quarter := base as real * 0.25;
    var part := draw * quarter;
    ScaleMonotone(quarter, 0.0, draw);
    assert quarter * (1.0 - draw) > 0.0;
    assert 0.0 <= part < quarter;
    assert draw * quarter * 2.0 == 2.0 * part;
  }

  lemma Converted(base: int, x: real, overflow: int)
    requires 0 < base && 5 * base <= 4 * MAX_INT64
    requires 3.0 * base as real <= 4.0 * x <= 5.0 * base as real
    ensures 3 * base - 4 < 4 * ToDuration(x, overflow) <= 5 * base
  {
    var n := x.Floor;
    assert n as real <= x < n as real + 1.0;
    assert 4 * n <= 5 * base;
  }

  /** A cap that a delay of `base` cannot be moved across. */
  predicate LeavesRoom(base: int, cap: int) {
    5 * base <= 4 * (cap + 1)
  }

  /**
   A caller is safe from delays above the cap exactly without jitter, or while the un-jittered delay stays below four
   fifths of the cap (and one nanosecond).
   */
  lemma JitterKeepsCapExactly(p: Policy, n: nat, overflow: int)
    requires Sensible(p) && Fits(p, n) && 5 * p.maxBackoff <= 4 * MAX_INT64
    ensures (forall draw :: 0.0 <= draw < 1.0 ==> Delay(p, n, overflow, draw) <= p.maxBackoff) <==>
            !p.jitter || LeavesRoom(Min(p.maxBackoff, Ideal(p, n)), p.maxBackoff)
  {
    hide Jittered, Uncapped, Ideal, ToDuration;
    FitsMeansIdeal(p, n, overflow);
    var base, cap := Capped(p, n, overflow), p.maxBackoff;
    assert base == Min(cap, Ideal(p, n)) && 0 <= base <= cap;
    if p.jitter && base > 0 {
      if LeavesRoom(base, cap) {
        forall draw | 0.0 <= draw < 1.0 ensures Delay(p, n, overflow, draw) <= cap {
          JitterRange(base, draw);
          BelowCap(base, cap, Jittered(base, draw), overflow);
        }
      } else {
        var draw := CrossingDraw(base, cap);
        AtCrossing(base, cap, Jittered(base, draw), overflow);
        assert Delay(p, n, overflow, draw) == cap + 1;
      }
    }
  }

  lemma BelowCap(base: int, cap: int, x: real, overflow: int)
    requires 0 < base <= cap && 5 * cap <= 4 * MAX_INT64 && LeavesRoom(base, cap)
    requires 3.0 * base as real <= 4.0 * x < 5.0 * base as real
    ensures 0 <= ToDuration(x, overflow) <= cap
  {
    Converted(base, x, overflow);
    assert x < cap as real + 1.0;
  }

  lemma AtCrossing(base: int, cap: int, x: real, overflow: int)
    requires 0 < base <= cap && 5 * cap <= 4 * MAX_INT64 && x == (cap + 1) as real
    ensures !LeavesRoom(base, cap) ==> ToDuration(x, overflow) == cap + 1
  {
  }

  /** The delay as a real number, before rounding, cap and jitter. */
  function Nominal(p: Policy, n: nat): real {
    match p.strategy
    case Fixed => p.initialBackoff as real
    case Exponential => Product(p.initialBackoff as real, Pow(p.backoffFactor, n))
    case Linear => Product(p.initialBackoff as real, 1.0 + p.backoffFactor * n as real)
  }

  /** A delay taken between 3/4 and 5/4 times. */
  function Spread(delay: int, draw: real): int {
    Product(delay as real, 0.75 + draw / 2.0).Floor
  }

  lemma NominalIsIdeal(p: Policy, n: nat)
    requires Sensible(p)
    ensures Ideal(p, n) == Nominal(p, n).Floor && Nominal(p, n) >= 0.0
  {
    IdealMonotone(p, n, n);
    match p.strategy
    case Fixed =>
    case Exponential =>
      PowAtLeastOne(p.backoffFactor, n);
      ScaleMonotone(p.initialBackoff as real, 0.0, Pow(p.backoffFactor, n));
    case Linear =>
      var a, f, k := p.initialBackoff as real, p.backoffFactor, n as real;
      ProductGrows(a, 0.0, f);
      ProductGrows(Product(a, f), 0.0, k);
      assert a * (1.0 + f * k) == a + a * (f * k);
      assert a * (f * k) == Product(Product(a, f), k);
  }

  /** In range and with a cap that leaves room for jitter, delay `n` is this for random draw `draw`. */
  function ClosedForm(p: Policy, n: nat, draw: real): int {
    var base := Min(p.maxBackoff, Nominal(p, n).Floor);
    if p.jitter then Spread(base, draw) else base
  }

  predicate InRange(p: Policy, n: nat) {
    Sensible(p) && Nominal(p, n).Floor <= MAX_INT64 && 5 * p.maxBackoff <= 4 * MAX_INT64
  }

  /** Every delay in closed form: by strategy, cut at the cap, then scaled by the draw to between 3/4 and 5/4. */
  lemma DelayInClosedForm(p: Policy, n: nat, overflow: int, draw: real)
    requires InRange(p, n) && 0.0 <= draw < 1.0
    ensures Delay(p, n, overflow, draw) == ClosedForm(p, n, draw)
  {
    hide Jittered, Uncapped, Ideal, ToDuration, Nominal;
    NominalIsIdeal(p, n);
    FitsMeansIdeal(p, n, overflow);
    var base := Capped(p, n, overflow);
    assert base == Min(p.maxBackoff, Nominal(p, n).Floor) >= 0;
    if p.jitter {
      JitteredBy(base, draw);
      assert base as real * (0.75 + draw / 2.0) == base as real * 0.75 + draw * (base as real * 0.5);
      if base > 0 {
        JitterRange(base, draw);
        Converted(base, Jittered(base, draw), overflow);
        FloorFits(Jittered(base, draw), base, overflow);
      }
    }
  }

  lemma FloorFits(x: real, base: int, overflow: int)
    requires 0 < base && 5 * base <= 4 * MAX_INT64 && 0.0 <= 4.0 * x <= 5.0 * base as real
    ensures ToDuration(x, overflow) == x.Floor >= 0
  {
    assert x.Floor as real <= x;
    assert 4 * x.Floor <= 5 * base;
  }

  /** The random draw that takes a delay just across the cap. */
  lemma CrossingDraw(base: int, cap: int) returns (draw: real)
    requires 0 < base <= cap && !LeavesRoom(base, cap)
    ensures 0.0 <= draw < 1.0 && Jittered(base, draw) == (cap + 1) as real
  {
    var half := base as real * 0.5;
    var over := (cap + 1) as real - base as real * 0.75;
    draw := over / half;
    Ratio(over, half);
    JitteredBy(base, draw);
  }

  lemma Ratio(x: real, y: real)
    requires 0.0 <= x < y
    ensures 0.0 <= x / y < 1.0 && (x / y) * y == x
  {
    var q := x / y;
    assert q * y == x;
    assert q >= 1.0 ==> (q - 1.0) * y >= 0.0;
    assert q < 0.0 ==> -q * y > 0.0;
  }

  lemma JitteredBy(base: int, draw: real)
    ensures Jittered(base, draw) == base as real * 0.75 + draw * (base as real * 0.5)
  {
    assert draw * (base as real * 0.25) * 2.0 == draw * (base as real * 0.5);
  }

  /** The tenth delay of the default policy is the cap of five minutes; a draw of 0.9 makes six minutes of it. */
  lemma JitterExceedsCap(overflow: int)
    ensures var p := Policy(3, 1_000_000_000, 300_000_000_000, 2.0, Exponential, true, None);
            Sensible(p) && Fits(p, 9) && Delay(p, 9, overflow, 0.9) == 360_000_000_000 > p.maxBackoff
  {
    PowAdds(2.0, 4, 5);
    assert Pow(2.0, 4) == 16.0 && Pow(2.0, 5) == 32.0;
    assert Pow(2.0, 9) == 512.0;
  }

  // ---------------------------------------------------------------- total of the exponential delays

  function IdealSum(p: Policy, n: nat): int {
    if n == 0 then 0 else IdealSum(p, n - 1) + Ideal(p, n - 1)
  }

  /** Up to the truncation of each term, the first `n` exponential delays add up to the geometric sum. */
  lemma {:induction false} GeometricSum(p: Policy, n: nat)
    requires Sensible(p) && p.strategy.Exponential?
    ensures WithinSlack(IdealSum(p, n) as real, n as real, p.initialBackoff as real,
                        Pow(p.backoffFactor, n), p.backoffFactor)
  {
    hide WithinSlack, Ideal, Product;
    if n == 0 {
      NoTerms(p.initialBackoff as real, p.backoffFactor);
    } else {
      GeometricSum(p, n - 1);
      TermTruncates(p, n - 1);
      NextTerm(IdealSum(p, n - 1) as real, (n - 1) as real, Ideal(p, n - 1) as real,
               p.initialBackoff as real, Pow(p.backoffFactor, n - 1), p.backoffFactor,
               IdealSum(p, n) as real, n as real, Pow(p.backoffFactor, n));
    }
  }

  /** The un-jittered delays before the first `n` retries. */
  function PlainSum(p: Policy, n: nat, overflow: int): int {
    if n == 0 then 0 else PlainSum(p, n - 1, overflow) + Capped(p, n - 1, overflow)
  }

  /** Below the cap that total is the sum the geometric formula encloses. */
  lemma {:induction false} PlainSumBelowCap(p: Policy, n: nat, overflow: int)
    requires Sensible(p) && p.strategy.Exponential? && (n > 0 ==> Ideal(p, n - 1) <= p.maxBackoff)
    ensures PlainSum(p, n, overflow) == IdealSum(p, n)
    ensures WithinSlack(PlainSum(p, n, overflow) as real, n as real, p.initialBackoff as real,
                        Pow(p.backoffFactor, n), p.backoffFactor)
  {
    hide WithinSlack, Ideal, Uncapped;
    if n == 0 {
    } else {
      if n > 1 {
        IdealMonotone(p, n - 2, n - 1);
      }
      PlainSumBelowCap(p, n - 1, overflow);
      FitsMeansIdeal(p, n - 1, overflow);
    }
    GeometricSum(p, n);
  }

  /** `sum` and `sum + slack` enclose the geometric sum `a * (x - 1) / (f - 1)`, where `x` is the power reached. */
  predicate WithinSlack(sum: real, slack: real, a: real, x: real, f: real) {
    Product(sum, f - 1.0) <= Product(a, x - 1.0) <= Product(sum + slack, f - 1.0)
  }

  lemma NoTerms(a: real, f: real)
    ensures WithinSlack(0.0, 0.0, a, 1.0, f)
  {
  }

  lemma TermTruncates(p: Policy, n: nat)
    requires Sensible(p) && p.strategy.Exponential?
    ensures Ideal(p, n) as real <= Product(p.initialBackoff as real, Pow(p.backoffFactor, n))
            <= Ideal(p, n) as real + 1.0
  {
    PowAtLeastOne(p.backoffFactor, n);
    ScaleMonotone(p.initialBackoff as real, 0.0, Pow(p.backoffFactor, n));
  }

  lemma NextTerm(sum: real, slack: real, term: real, a: real, x: real, f: real, sum': real, slack': real, x': real)
    requires f >= 1.0 && term <= Product(a, x) <= term + 1.0
    requires WithinSlack(sum, slack, a, x, f)
    requires sum' == sum + term && slack' == slack + 1.0 && x' == f * x
    ensures WithinSlack(sum', slack', a, x', f)
  {
    hide Product;
    var d, y := f - 1.0, Product(a, x);
    Scaled(term, y, d);
    Scaled(y, term + 1.0, d);
    Add(sum, term, d);
    Add(sum + slack, term + 1.0, d);
    Distribute(a, x, f);
    assert sum' + slack' == sum + slack + (term + 1.0);
    assert x' - 1.0 == f * x - 1.0;
  }

  lemma Scaled(x: real, y: real, d: real)
    requires x <= y && d >= 0.0
    ensures Product(x, d) <= Product(y, d)
  {
    ScaleMonotone(d, x, y);
  }

  lemma Distribute(a: real, x: real, f: real)
    ensures Product(a, f * x - 1.0) == Product(a, x - 1.0) + Product(Product(a, x), f - 1.0)
  {
    assert a * (f * x - 1.0) == a * (f * x) - a;
    assert a * (f * x) == (a * x) * f;
  }

  lemma Add(x: real, y: real, d: real)
    ensures Product(x + y, d) == Product(x, d) + Product(y, d)
  {
  }

  // ---------------------------------------------------------------- Do

  predicate ShouldRetry(p: Policy, attempt: int, err: Option<string>) {
    if attempt >= p.maxRetries then false
    else if p.retryableCheck.Some? then p.retryableCheck.value(err)
    else err.Some?
  }

  datatype DoResult = Succeeded | Interrupted | Exhausted(last: Option<string>)

  /** The waits before the attempts 1 to `n`. */
  function Waits(p: Policy, n: nat, overflow: int, draws: nat -> real): seq<int> {
    seq(n, i requires 0 <= i < n => Delay(p, i, overflow, draws(i + 1)))
  }

  function Total(s: seq<int>): int {
    if s == [] then 0 else Total(s[..|s| - 1]) + s[|s| - 1]
  }

  lemma {:induction false} TotalJoins(a: seq<int>, b: seq<int>)
    ensures Total(a + b) == Total(a) + Total(b) && Total([]) == 0 && forall x :: Total([x]) == x
  {
    if b == [] {
      assert a + b == a;
    } else {
      TotalJoins(a, b[..|b| - 1]);
      assert (a + b)[..|a + b| - 1] == a + b[..|b| - 1];
    }
    forall x ensures Total([x]) == x {
      assert [x][..0] == [];
    }
  }

  /** There is a retry left, and the check accepts the outcome, or there is no check and the attempt failed. */
  predicate Worth(p: Policy, i: nat, outcome: Option<string>) {
    i < p.maxRetries && match p.retryableCheck
                        case Some(check) => check(outcome)
                        case None => outcome.Some?
  }

  /** Attempt `i` failed in a way that is worth another attempt, and the wait for the next was not interrupted. */
  predicate GoesOn(p: Policy, outcomes: nat -> Option<string>, cancelled: nat -> bool, i: nat) {
    outcomes(i).Some? && Worth(p, i, outcomes(i)) && !cancelled(i + 1)
  }

  /** Attempt `i` succeeds, and all before it go on. */
  ghost predicate Reaches(p: Policy, outcomes: nat -> Option<string>, cancelled: nat -> bool, i: nat) {
    outcomes(i).None? && forall j :: 0 <= j < i ==> GoesOn(p, outcomes, cancelled, j)
  }

  /**
   Calls the function until it succeeds, fails in a way that is not worth a retry, or the context is cancelled during
   a wait.  `outcomes(i)` is what call `i` returns, `cancelled(i)` whether the wait before it is interrupted.
   */
  method Do(p: Policy, outcomes: nat -> Option<string>, cancelled: nat -> bool, draws: nat -> real, overflow: int)
    returns (r: DoResult, calls: nat, waits: seq<int>)
    ensures p.maxRetries < 0 ==> r == Exhausted(None) && calls == 0
    ensures p.maxRetries >= 0 ==> 0 < calls <= p.maxRetries + 1
    ensures forall i :: 0 <= i < calls - 1 ==> GoesOn(p, outcomes, cancelled, i)
    ensures p.maxRetries >= 0 ==> !GoesOn(p, outcomes, cancelled, calls - 1)
    ensures p.maxRetries >= 0 ==>
      r == if outcomes(calls - 1).None? then Succeeded
           else if Worth(p, calls - 1, outcomes(calls - 1)) then Interrupted
           else Exhausted(outcomes(calls - 1))
    ensures r == Succeeded <==> exists i :: 0 <= i <= p.maxRetries && Reaches(p, outcomes, cancelled, i)
    ensures p.maxRetries >= 0 && p.retryableCheck.None? && (forall i :: outcomes(i).Some? && !cancelled(i)) ==>
      calls == p.maxRetries + 1 && r == Exhausted(outcomes(p.maxRetries))
    ensures waits == Waits(p, if calls == 0 then 0 else calls - 1, overflow, draws)
    ensures |waits| == if calls == 0 then 0 else calls - 1
    ensures forall i :: 0 <= i < |waits| && InRange(p, i) && 0.0 <= draws(i + 1) < 1.0 ==>
      waits[i] == ClosedForm(p, i, draws(i + 1))
  {
    calls, waits := 0, [];
    var lastErr: Option<string> := None;
    var attempt := 0;
    while attempt <= p.maxRetries
      invariant calls == attempt && 0 <= attempt
      invariant attempt == 0 ==> lastErr == None
      invariant attempt > 0 ==> attempt <= p.maxRetries && lastErr == outcomes(attempt - 1)
      invariant attempt > 0 ==> lastErr.Some? && Worth(p, attempt - 1, lastErr)
      invariant forall i :: 0 <= i < attempt - 1 ==> GoesOn(p, outcomes, cancelled, i)
      invariant waits == Waits(p, if attempt == 0 then 0 else attempt - 1, overflow, draws)
      decreases p.maxRetries - attempt
    {
      if attempt > 0 {
        if cancelled(attempt) {
          StopsShort(p, outcomes, cancelled, attempt);
          WaitsInClosedForm(p, |waits|, overflow, draws);
          return Interrupted, calls, waits;
        }
        waits := waits + [Delay(p, attempt - 1, overflow, draws(attempt))];
      }
      lastErr := outcomes(attempt);
      calls := calls + 1;
      if lastErr.None? {
        assert Reaches(p, outcomes, cancelled, attempt);
        WaitsInClosedForm(p, |waits|, overflow, draws);
        return Succeeded, calls, waits;
      }
      if !ShouldRetry(p, attempt, lastErr) {
        StopsShort(p, outcomes, cancelled, calls);
        break;
      }
      attempt := attempt + 1;
    }
    r := Exhausted(lastErr);
    WaitsInClosedForm(p, |waits|, overflow, draws);
  }

  /** The last of `calls` attempts neither succeeded nor went on, so no attempt succeeds. */
  lemma StopsShort(p: Policy, outcomes: nat -> Option<string>, cancelled: nat -> bool, calls: nat)
    requires calls > 0 && outcomes(calls - 1).Some? && !GoesOn(p, outcomes, cancelled, calls - 1)
    requires forall i :: 0 <= i < calls - 1 ==> GoesOn(p, outcomes, cancelled, i)
    ensures forall i: nat :: !Reaches(p, outcomes, cancelled, i)
  {
    forall i: nat ensures !Reaches(p, outcomes, cancelled, i) {
      if i < calls - 1 {
        assert GoesOn(p, outcomes, cancelled, i);
      }
    }
  }

  lemma WaitsInClosedForm(p: Policy, n: nat, overflow: int, draws: nat -> real)
    ensures forall i :: 0 <= i < n && InRange(p, i) && 0.0 <= draws(i + 1) < 1.0 ==>
      Waits(p, n, overflow, draws)[i] == ClosedForm(p, i, draws(i + 1))
  {
    hide Delay, ClosedForm;
    forall i | 0 <= i < n && InRange(p, i) && 0.0 <= draws(i + 1) < 1.0
      ensures Waits(p, n, overflow, draws)[i] == ClosedForm(p, i, draws(i + 1))
    {
      DelayInClosedForm(p, i, overflow, draws(i + 1));
    }
  }

  /** All waits together stay within the number of retries times 1.25 times the cap. */
  lemma {:induction false} WaitsBounded(p: Policy, n: nat, overflow: int, draws: nat -> real)
    requires Sensible(p) && (n > 0 ==> Fits(p, n - 1)) && 5 * p.maxBackoff <= 4 * MAX_INT64
    requires forall i :: 0.0 <= draws(i) < 1.0
    ensures 0 <= 4 * Total(Waits(p, n, overflow, draws)) <= 5 * (n * p.maxBackoff)
  {
    hide Ideal, Delay;
    if n == 0 {
    } else {
      if n > 1 {
        IdealMonotone(p, n - 2, n - 1);
      }
      var all := Waits(p, n, overflow, draws);
      assert all[..|all| - 1] == Waits(p, n - 1, overflow, draws);
      WaitsBounded(p, n - 1, overflow, draws);
      DelayBounded(p, n - 1, overflow, draws(n));
      OneMoreTime(n, p.maxBackoff);
    }
  }

  lemma OneMoreTime(n: nat, x: int)
    requires n > 0
    ensures n * x == (n - 1) * x + x
  {
  }

  /** `Do` makes at most `retries` waits, and they add up to at most that many times 1.25 times the cap. */
  lemma WaitsWithinRetries(p: Policy, n: nat, retries: nat, overflow: int, draws: nat -> real)
    requires Sensible(p) && n <= retries && (retries > 0 ==> Fits(p, retries - 1)) && 5 * p.maxBackoff <= 4 * MAX_INT64
    requires forall i :: 0.0 <= draws(i) < 1.0
    ensures 0 <= 4 * Total(Waits(p, n, overflow, draws)) <= 5 * (retries * p.maxBackoff)
  {
    hide Waits, Ideal;
    if n > 0 {
      IdealMonotone(p, n - 1, retries - 1);
    }
    WaitsBounded(p, n, overflow, draws);
    MoreTimes(n, retries, p.maxBackoff);
  }

  lemma MoreTimes(k: int, n: int, x: int)
    requires k <= n && x >= 0
    ensures k * x <= n * x
  {
    assert (n - k) * x >= 0;
  }

  lemma DelayBounded(p: Policy, n: nat, overflow: int, draw: real)
    requires Sensible(p) && Fits(p, n) && 0.0 <= draw < 1.0 && 5 * p.maxBackoff <= 4 * MAX_INT64
    ensures 0 <= 4 * Delay(p, n, overflow, draw) <= 5 * p.maxBackoff
  {
    CappedMonotone(p, n, n, overflow);
    JitterBounds(p, n, overflow, draw);
  }
}
