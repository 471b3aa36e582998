/** Per-session variable difficulty (src/mining/vardiff.rs).

    Floating point is modelled over the reals, with the square root a parameter
    known only by its defining property. */
module Vardiff {
  import opened Wrappers
  import opened ShareRecord

  /** `[vardiff]`, with times in seconds. */
  datatype Config = Config(minDifficulty: nat, maxDifficulty: nat, maxFactor: real, targetShareTime: nat, interval: nat)

  /** What `validate_vardiff` admits. */
  predicate ValidConfig(c: Config) {
    && 1 <= c.minDifficulty <= c.maxDifficulty <= U64_MAX
    && c.maxFactor >= 1.0 && c.targetShareTime >= 1 && c.interval >= 1
  }

  const RETARGET_WINDOW_SHARES: nat := 20

  type Sqrt = real -> real

  ghost predicate IsSqrt(sqrt: Sqrt) {
    forall x: real :: x >= 0.0 ==> sqrt(x) >= 0.0 && sqrt(x) * sqrt(x) == x
  }

  /** `f64::round` of a non-negative number. */
  function Round(x: real): int { (x + 0.5).Floor }

  function ClampInt(x: int, lo: int, hi: int): int { if x < lo then lo else if x > hi then hi else x }

  function ClampReal(x: real, lo: real, hi: real): real { if x < lo then lo else if x > hi then hi else x }

  /** Inside the hysteresis band the difference is taken for noise. */
  predicate InBand(ratio: real) { 1.0 <= 1.5 * ratio && ratio <= 1.5 }

  /** Halfway in ratio terms within a factor of three, the whole way beyond. */
  function StepOf(ratio: real, sqrt: Sqrt): real {
    if 1.0 <= 3.0 * ratio && ratio <= 3.0 then sqrt(ratio) else ratio
  }

  /** The step limited to the configured factor either way. */
  function Limited(step: real, factor: real): real
    requires factor >= 1.0
  {
    ClampReal(step, 1.0 / factor, factor)
  }

  /** Rounded (`as u64` saturates) and clamped to the configured range. */
  function Settle(c: Config, x: real): int {
    ClampInt(if Round(x) > U64_MAX then U64_MAX else Round(x), c.minDifficulty, c.maxDifficulty)
  }

  function Scale(n: nat, f: real): real { n as real * f }

  /** The difficulty after one retarget on evidence supporting `ratio` times the
      current difficulty. */
  function Retarget(c: Config, current: nat, ratio: real, sqrt: Sqrt): int
    requires c.maxFactor >= 1.0
  {
    if InBand(ratio) then current
    else Settle(c, Scale(current, Limited(StepOf(ratio, sqrt), c.maxFactor)))
  }

  // ----- Arithmetic -----

  lemma RoundMonotone(x: real, y: real)
    requires x <= y
    ensures Round(x) <= Round(y)
  {
  }

  lemma RoundNear(x: real)
    ensures x - 0.5 < Round(x) as real <= x + 0.5
  {
  }

  lemma RoundWhole(n: int)
    ensures Round(n as real) == n
  {
  }

  lemma MulMonotone(a: real, x: real, y: real)
    requires a >= 0.0 && x <= y
    ensures a * x <= a * y
  {
  }

  lemma PositiveProduct(a: real, b: real)
    requires a > 0.0 && b > 0.0
    ensures a * b > 0.0
  {
  }

  lemma SquaresOrder(x: real, y: real)
    requires x >= 0.0 && y >= 0.0 && x > y
    ensures x * x > y * y
  {
    PositiveProduct(x - y, x + y);
    assert x * x - y * y == (x - y) * (x + y);
  }

  /** Square roots keep the order, and lie between their square and one. */
  lemma RootOrder(s: real, t: real)
    requires s >= 0.0 && t >= 0.0 && s * s <= t * t
    ensures s <= t
  {
    if s > t {
      SquaresOrder(s, t);
      assert false;
    }
  }

  lemma RootAbove(s: real, r: real)
    requires s >= 0.0 && s * s == r >= 1.0
    ensures 1.0 <= s <= r
  {
    RootOrder(1.0, s);
    MulMonotone(s, 1.0, s);
  }

  lemma RootBelow(s: real, r: real)
    requires s >= 0.0 && s * s == r && r <= 1.0
    ensures r <= s <= 1.0
  {
    AtMostOne(s);
    SquareBelow(s);
  }

  lemma AtMostOne(s: real)
    requires s >= 0.0 && s * s <= 1.0
    ensures s <= 1.0
  {
    RootOrder(s, 1.0);
  }

  lemma SquareBelow(s: real)
    requires 0.0 <= s <= 1.0
    ensures s * s <= s
  {
  }

  /** The step lies between standing still and the evidence. */
  lemma StepBetween(ratio: real, sqrt: Sqrt)
    requires ratio > 0.0 && IsSqrt(sqrt)
    ensures ratio >= 1.0 ==> 1.0 <= StepOf(ratio, sqrt) <= ratio
    ensures ratio <= 1.0 ==> ratio <= StepOf(ratio, sqrt) <= 1.0
  {
    if ratio >= 1.0 {
      RootAbove(sqrt(ratio), ratio);
    }
    if ratio <= 1.0 {
      RootBelow(sqrt(ratio), ratio);
    }
  }

  /** More evidence, no smaller step. */
  lemma StepMonotone(a: real, b: real, sqrt: Sqrt)
    requires 0.0 < a <= b && IsSqrt(sqrt)
    ensures StepOf(a, sqrt) <= StepOf(b, sqrt)
  {
    StepBetween(a, sqrt);
    StepBetween(b, sqrt);
    assert sqrt(a) * sqrt(a) == a && sqrt(b) * sqrt(b) == b;
    RootOrder(sqrt(a), sqrt(b));
  }

  lemma Inverse(factor: real)
    requires factor >= 1.0
    ensures 0.0 < 1.0 / factor <= 1.0
  {
    var i := 1.0 / factor;
    assert i * factor == 1.0;
    if i > 1.0 {
      MulMonotone(i, 1.0, factor);
      assert false;
    } else if i <= 0.0 {
      MulMonotone(factor, i, 0.0);
      assert false;
    }
  }

  /** Limiting a step moves it toward standing still. */
  lemma LimitBetween(step: real, factor: real)
    requires factor >= 1.0 && step > 0.0
    ensures 1.0 / factor <= Limited(step, factor) <= factor
    ensures step >= 1.0 ==> 1.0 <= Limited(step, factor) <= step
    ensures step <= 1.0 ==> step <= Limited(step, factor) <= 1.0
  {
    Inverse(factor);
  }

  // ----- One retarget -----

  /** The difficulty the evidence supports, rounded and clamped. */
  function Goal(c: Config, current: nat, ratio: real): int { Settle(c, Scale(current, ratio)) }

  lemma ScaleMonotone(n: nat, f: real, g: real)
    requires f <= g
    ensures Scale(n, f) <= Scale(n, g)
  {
    MulMonotone(n as real, f, g);
  }

  lemma SettleMonotone(c: Config, x: real, y: real)
    requires x <= y && ValidConfig(c)
    ensures Settle(c, x) <= Settle(c, y)
  {
    RoundMonotone(x, y);
  }

  lemma SettleWhole(c: Config, n: nat)
    requires ValidConfig(c) && c.minDifficulty <= n <= c.maxDifficulty
    ensures Settle(c, Scale(n, 1.0)) == n
  {
    RoundWhole(n);
  }

  /** Clamping to a range that holds `n` moves a value toward `n`. */
  lemma SettleToward(c: Config, n: nat, x: real)
    requires ValidConfig(c) && c.minDifficulty <= n <= c.maxDifficulty
    ensures Settle(c, x) <= n || Settle(c, x) as real <= x + 0.5
    ensures Settle(c, x) >= n || Settle(c, x) as real >= x - 0.5
  {
    RoundNear(x);
  }

  /** A retarget from within the configured range stays in it and lies between the
      current difficulty and the one the evidence supports. */
  lemma RetargetBetween(c: Config, current: nat, ratio: real, sqrt: Sqrt)
    requires ValidConfig(c) && c.minDifficulty <= current <= c.maxDifficulty
    requires ratio > 0.0 && IsSqrt(sqrt)
    ensures c.minDifficulty <= Retarget(c, current, ratio, sqrt) <= c.maxDifficulty
    ensures ratio >= 1.0 ==> current <= Retarget(c, current, ratio, sqrt) <= Goal(c, current, ratio)
    ensures ratio <= 1.0 ==> Goal(c, current, ratio) <= Retarget(c, current, ratio, sqrt) <= current
  {
    var l := Limited(StepOf(ratio, sqrt), c.maxFactor);
    StepBetween(ratio, sqrt);
    LimitBetween(StepOf(ratio, sqrt), c.maxFactor);
    SettleWhole(c, current);
    if ratio >= 1.0 {
      Ordered(c, current, 1.0, l, ratio);
    }
    if ratio <= 1.0 {
      Ordered(c, current, ratio, l, 1.0);
    }
  }

  lemma Ordered(c: Config, n: nat, f: real, g: real, h: real)
    requires ValidConfig(c) && f <= g <= h
    ensures Settle(c, Scale(n, f)) <= Settle(c, Scale(n, g)) <= Settle(c, Scale(n, h))
  {
    ScaleMonotone(n, f, g);
    ScaleMonotone(n, g, h);
    SettleMonotone(c, Scale(n, f), Scale(n, g));
    SettleMonotone(c, Scale(n, g), Scale(n, h));
  }

  /** ... and moves at most the configured factor, up to rounding. */
  lemma RetargetFactor(c: Config, current: nat, ratio: real, sqrt: Sqrt)
    requires ValidConfig(c) && c.minDifficulty <= current <= c.maxDifficulty
    requires ratio > 0.0 && IsSqrt(sqrt)
    ensures Scale(current, 1.0 / c.maxFactor) - 0.5 <= Retarget(c, current, ratio, sqrt) as real
    ensures Retarget(c, current, ratio, sqrt) as real <= Scale(current, c.maxFactor) + 0.5
  {
    var l := Limited(StepOf(ratio, sqrt), c.maxFactor);
    StepBetween(ratio, sqrt);
    LimitBetween(StepOf(ratio, sqrt), c.maxFactor);
    Inverse(c.maxFactor);
    ScaleMonotone(current, 1.0 / c.maxFactor, l);
    ScaleMonotone(current, l, c.maxFactor);
    ScaleMonotone(current, 1.0 / c.maxFactor, 1.0);
    ScaleMonotone(current, 1.0, c.maxFactor);
    assert Scale(current, 1.0) == current as real;
    SettleToward(c, current, Scale(current, l));
  }

  lemma LimitMonotone(x: real, y: real, factor: real)
    requires x <= y && factor >= 1.0
    ensures Limited(x, factor) <= Limited(y, factor)
  {
    Inverse(factor);
  }

  /** More proven work never gives a lower difficulty. */
  lemma RetargetMonotone(c: Config, current: nat, less: real, more: real, sqrt: Sqrt)
    requires ValidConfig(c) && c.minDifficulty <= current <= c.maxDifficulty
    requires 0.0 < less <= more && IsSqrt(sqrt)
    ensures Retarget(c, current, less, sqrt) <= Retarget(c, current, more, sqrt)
  {
    if InBand(less) || InBand(more) {
      RetargetBetween(c, current, less, sqrt);
      RetargetBetween(c, current, more, sqrt);
    } else {
      StepMonotone(less, more, sqrt);
      LimitMonotone(StepOf(less, sqrt), StepOf(more, sqrt), c.maxFactor);
      var (l, m) := (Limited(StepOf(less, sqrt), c.maxFactor), Limited(StepOf(more, sqrt), c.maxFactor));
      Ordered(c, current, l, m, m);
    }
  }

  // ----- Repeated retargets on a constant rate -----

  /** The ratio a constant evidence-supported difficulty has to the current one. */
  function RatioTo(ideal: real, current: nat): real
    requires current >= 1
  {
    ideal / current as real
  }

  lemma RatioScales(ideal: real, current: nat)
    requires current >= 1 && ideal > 0.0
    ensures Scale(current, RatioTo(ideal, current)) == ideal && RatioTo(ideal, current) > 0.0
  {
    var (r, n) := (RatioTo(ideal, current), current as real);
    assert n * r == ideal;
    if r <= 0.0 {
      MulMonotone(n, r, 0.0);
      assert false;
    }
  }

  function Distance(a: int, b: int): nat { if a < b then b - a else a - b }

  /** A move on the same evidence ends strictly closer to what it supports. */
  lemma MoveCloser(c: Config, current: nat, ideal: real, sqrt: Sqrt)
    requires ValidConfig(c) && c.minDifficulty <= current <= c.maxDifficulty
    requires ideal > 0.0 && IsSqrt(sqrt)
    requires Retarget(c, current, RatioTo(ideal, current), sqrt) != current
    ensures Distance(Retarget(c, current, RatioTo(ideal, current), sqrt), Settle(c, ideal))
          < Distance(current, Settle(c, ideal))
  {
    RatioScales(ideal, current);
    RetargetBetween(c, current, RatioTo(ideal, current), sqrt);
  }

  /** Successive difficulties of a session whose every retarget moved. */
  ghost predicate Moves(c: Config, ds: seq<nat>, ideal: real, sqrt: Sqrt)
    requires c.maxFactor >= 1.0
  {
    && (forall i :: 0 <= i < |ds| ==> c.minDifficulty <= ds[i] <= c.maxDifficulty && ds[i] >= 1)
    && (forall i :: 0 < i < |ds| ==>
          ds[i] == Retarget(c, ds[i - 1], RatioTo(ideal, ds[i - 1]), sqrt) && ds[i] != ds[i - 1])
  }

  /** On a constant proven rate retargeting stops: there are at most as many moves
      as the starting difficulty is away from the supported one. */
  lemma {:induction false} RetargetingStops(c: Config, ds: seq<nat>, ideal: real, sqrt: Sqrt)
    requires ValidConfig(c) && ideal > 0.0 && IsSqrt(sqrt) && ds != [] && Moves(c, ds, ideal, sqrt)
    ensures |ds| - 1 + Distance(ds[|ds| - 1], Settle(c, ideal)) <= Distance(ds[0], Settle(c, ideal))
  {
    if |ds| > 1 {
      var last := |ds| - 1;
      RetargetingStops(c, ds[..last], ideal, sqrt);
      assert ds[last] == Retarget(c, ds[last - 1], RatioTo(ideal, ds[last - 1]), sqrt) && ds[last] != ds[last - 1];
      MoveCloser(c, ds[last - 1], ideal, sqrt);
    }
  }

  /** The limited step is worth less than half a unit of difficulty. */
  predicate Swallowed(c: Config, current: nat, ratio: real, sqrt: Sqrt)
    requires c.maxFactor >= 1.0
  {
    var x := Scale(current, Limited(StepOf(ratio, sqrt), c.maxFactor));
    current as real - 0.5 <= x < current as real + 0.5
  }

  /** Exactly when a retarget leaves the difficulty alone: the evidence is inside the
      band, rounding swallows the step, or the range stops it. */
  lemma RestIff(c: Config, current: nat, ratio: real, sqrt: Sqrt)
    requires ValidConfig(c) && c.minDifficulty <= current <= c.maxDifficulty
    requires ratio > 0.0 && IsSqrt(sqrt)
    ensures Retarget(c, current, ratio, sqrt) == current <==>
            || InBand(ratio) || Swallowed(c, current, ratio, sqrt)
            || (ratio > 1.0 && current == c.maxDifficulty)
            || (ratio < 1.0 && current == c.minDifficulty)
  {
    if !InBand(ratio) {
      var (l, n) := (Limited(StepOf(ratio, sqrt), c.maxFactor), current as real);
      StepBetween(ratio, sqrt);
      LimitBetween(StepOf(ratio, sqrt), c.maxFactor);
      assert Scale(current, 1.0) == n;
      if ratio > 1.0 {
        ScaleMonotone(current, 1.0, l);
        SettleUp(c, current, Scale(current, l));
      } else {
        ScaleMonotone(current, l, 1.0);
        SettleDown(c, current, Scale(current, l));
      }
    }
  }

  lemma SettleUp(c: Config, n: nat, x: real)
    requires ValidConfig(c) && c.minDifficulty <= n <= c.maxDifficulty && x >= n as real
    ensures Settle(c, x) == n <==> x < n as real + 0.5 || n == c.maxDifficulty
  {
    RoundMonotone(n as real, x);
    RoundWhole(n);
  }

  lemma SettleDown(c: Config, n: nat, x: real)
    requires ValidConfig(c) && c.minDifficulty <= n <= c.maxDifficulty && x <= n as real
    ensures Settle(c, x) == n <==> n as real - 0.5 <= x || n == c.minDifficulty
  {
    RoundMonotone(x, n as real);
    RoundWhole(n);
  }

  /** Rounding swallows no step outside the band for a factor of at least 1.5 and a
      difficulty of at least 3. */
  lemma LargeStepCounts(c: Config, current: nat, ratio: real, sqrt: Sqrt)
    requires c.maxFactor >= 1.5 && current >= 3 && ratio > 0.0 && IsSqrt(sqrt) && !InBand(ratio)
    ensures !Swallowed(c, current, ratio, sqrt)
  {
    var (l, n) := (Limited(StepOf(ratio, sqrt), c.maxFactor), current as real);
    StepClears(ratio, sqrt);
    Inverse(c.maxFactor);
    if ratio > 1.0 {
      ScaleMonotone(current, 1.2, l);
    } else {
      InverseOfThreeHalves(c.maxFactor);
      ScaleMonotone(current, l, 0.83);
    }
  }

  lemma InverseOfThreeHalves(factor: real)
    requires factor >= 1.5
    ensures 1.0 / factor <= 0.83
  {
    var i := 1.0 / factor;
    assert i * factor == 1.0;
    if i > 0.83 {
      MulMonotone(i, 1.5, factor);
      assert false;
    }
  }

  /** Outside the band the step is at least 1.2 up or 0.83 down. */
  lemma StepClears(ratio: real, sqrt: Sqrt)
    requires ratio > 0.0 && !InBand(ratio) && IsSqrt(sqrt)
    ensures ratio > 1.0 ==> StepOf(ratio, sqrt) >= 1.2
    ensures ratio < 1.0 ==> StepOf(ratio, sqrt) <= 0.83
  {
    var s := sqrt(ratio);
    assert s >= 0.0 && s * s == ratio;
    if ratio > 1.0 {
      RootOrder(1.2, s);
    } else {
      RootOrder(s, 0.83);
    }
  }

  // ----- The evidence -----

  function Lookback(c: Config): nat {
    var window := Capped(c.targetShareTime * RETARGET_WINDOW_SHARES);
    (if window < c.interval then c.interval else window) * SECOND
  }

  /** How much of the trailing window the record was observed for. */
  function Observed(r: Record, now: nat, window: nat): nat {
    if Age(now, r.startedAt) < window then Age(now, r.startedAt) else window
  }

  /** The credited work, or for a silent window a single share at the current
      difficulty. */
  function Proven(r: Record, now: nat, window: nat, current: nat): nat {
    var work := Capped(Work(r.shares, now, window));
    if work == 0 then current else work
  }

  /** The ratio of the difficulty that would turn `proven` work in `observed`
      nanoseconds into one share per target time to the current difficulty. */
  function Ratio(c: Config, proven: nat, observed: nat, current: nat): real
    requires observed > 0 && current > 0
  {
    RatioTo(Ideal(c, proven, observed), current)
  }

  function Ideal(c: Config, proven: nat, observed: nat): real
    requires observed > 0
  {
    proven as real * c.targetShareTime as real / Seconds(observed)
  }

  function Seconds(observed: nat): real { observed as real / SECOND as real }

  /** The difficulty after a retarget that is due at `now`. From a zero initial
      difficulty the ratio is infinite or not a number, and either way the product
      casts to zero and clamps to the floor. */
  function Judged(c: Config, r: Record, now: nat, current: nat, sqrt: Sqrt): int
    requires c.maxFactor >= 1.0
  {
    var observed := Observed(r, now, Lookback(c));
    if observed == 0 then current
    else if current == 0 then c.minDifficulty
    else Retarget(c, current, Ratio(c, Proven(r, now, Lookback(c), current), observed, current), sqrt)
  }

  lemma IdealPositive(c: Config, proven: nat, observed: nat)
    requires observed > 0 && proven > 0 && c.targetShareTime > 0
    ensures Ideal(c, proven, observed) > 0.0
  {
    PositiveProduct(proven as real, c.targetShareTime as real);
    QuotientPositive(proven as real * c.targetShareTime as real, Seconds(observed));
  }

  lemma QuotientPositive(a: real, b: real)
    requires a > 0.0 && b > 0.0
    ensures a / b > 0.0
  {
    assert a / b * b == a;
  }

  lemma QuotientMonotone(a: real, b: real, d: real)
    requires a <= b && d > 0.0
    ensures a / d <= b / d
  {
  }

  lemma RatioMonotone(c: Config, less: nat, more: nat, observed: nat, current: nat)
    requires observed > 0 && current > 0 && less <= more
    ensures Ratio(c, less, observed, current) <= Ratio(c, more, observed, current)
  {
    var t := c.targetShareTime as real;
    MulMonotone(t, less as real, more as real);
    QuotientMonotone(less as real * t, more as real * t, Seconds(observed));
    QuotientMonotone(Ideal(c, less, observed), Ideal(c, more, observed), current as real);
  }

  /** From within the range a due retarget stays in it, moves at most the configured
      factor up to rounding, and lands between the current difficulty and the rounded
      and clamped difficulty the record supports. */
  lemma JudgedBetween(c: Config, r: Record, now: nat, current: nat, sqrt: Sqrt)
    requires ValidConfig(c) && c.minDifficulty <= current <= c.maxDifficulty && IsSqrt(sqrt)
    requires Observed(r, now, Lookback(c)) > 0
    ensures c.minDifficulty <= Judged(c, r, now, current, sqrt) <= c.maxDifficulty
    ensures Scale(current, 1.0 / c.maxFactor) - 0.5 <= Judged(c, r, now, current, sqrt) as real
    ensures Judged(c, r, now, current, sqrt) as real <= Scale(current, c.maxFactor) + 0.5
    ensures var ideal := Settle(c, Ideal(c, Proven(r, now, Lookback(c), current), Observed(r, now, Lookback(c))));
            || current <= Judged(c, r, now, current, sqrt) <= ideal
            || ideal <= Judged(c, r, now, current, sqrt) <= current
  {
    var (p, o) := (Proven(r, now, Lookback(c), current), Observed(r, now, Lookback(c)));
    IdealPositive(c, p, o);
    RatioScales(Ideal(c, p, o), current);
    RetargetBetween(c, current, Ratio(c, p, o, current), sqrt);
    RetargetFactor(c, current, Ratio(c, p, o, current), sqrt);
  }

  // ----- The judgment in numbers -----

  /** The unrounded difficulty `x` brought to a whole number in the range. */
  predicate Near(c: Config, x: real, d: int) {
    && c.minDifficulty <= d <= c.maxDifficulty
    && (x >= c.maxDifficulty as real ==> d == c.maxDifficulty)
    && (x <= c.minDifficulty as real ==> d == c.minDifficulty)
    && (c.minDifficulty as real <= x <= c.maxDifficulty as real ==> d as real - 0.5 <= x <= d as real + 0.5)
  }

  lemma SettleNear(c: Config, x: real)
    requires ValidConfig(c)
    ensures Near(c, x, Settle(c, x))
  {
    RoundNear(x);
    RoundWhole(c.minDifficulty);
    RoundWhole(c.maxDifficulty);
    if x >= c.maxDifficulty as real {
      RoundMonotone(c.maxDifficulty as real, x);
    } else {
      RoundMonotone(x, c.maxDifficulty as real);
    }
    if x <= c.minDifficulty as real {
      RoundMonotone(x, c.minDifficulty as real);
    } else {
      RoundMonotone(c.minDifficulty as real, x);
    }
  }

  /** Halfway in ratio terms: the geometric mean, within a factor `f` of `n`. */
  predicate HalfMove(n: real, ideal: real, f: real, x: real) {
    if ideal > f * f * n then x == f * n
    else if n > f * f * ideal then x * f == n
    else x >= 0.0 && x * x == n * ideal
  }

  /** All the way, within a factor `f` of `n`. */
  predicate FullMove(n: real, ideal: real, f: real, x: real) {
    if ideal > f * n then x == f * n
    else if n > f * ideal then x * f == n
    else x == ideal
  }

  /** What the move from `n` on evidence for `ideal` must be. */
  predicate MovesTo(n: real, ideal: real, f: real, x: real) {
    if n <= 3.0 * ideal && ideal <= 3.0 * n then HalfMove(n, ideal, f, x) else FullMove(n, ideal, f, x)
  }

  lemma RatioAgainst(n: real, r: real, ideal: real, k: real)
    requires n > 0.0 && n * r == ideal
    ensures r <= k <==> ideal <= k * n
    ensures r > k <==> ideal > k * n
  {
    if r <= k {
      MulMonotone(n, r, k);
    } else {
      PositiveProduct(n, r - k);
      assert n * (r - k) == ideal - k * n;
    }
  }

  lemma RatioAgainstInverse(n: real, r: real, ideal: real, k: real)
    requires n > 0.0 && k > 0.0 && n * r == ideal
    ensures 1.0 <= k * r <==> n <= k * ideal
  {
    assert n * (k * r) == k * ideal;
    if 1.0 <= k * r {
      MulMonotone(n, 1.0, k * r);
    } else {
      PositiveProduct(n, 1.0 - k * r);
      assert n * (1.0 - k * r) == n - k * ideal;
    }
  }

  lemma BelowInverse(s: real, f: real, i: real)
    requires f >= 1.0 && 1.0 <= f * i <= 1.0
    ensures s < i <==> f * s < 1.0
  {
    if s < i {
      StrictlyBelow(s, f, i);
    } else {
      NotBelow(s, f, i);
    }
  }

  lemma StrictlyBelow(s: real, f: real, i: real)
    requires f >= 1.0 && f * i <= 1.0 && s < i
    ensures f * s < 1.0
  {
    MulStrict(f, s, i);
    Between(f * s, f * i, 1.0);
  }

  lemma Between(a: real, b: real, c: real)
    requires a < b <= c
    ensures a < c
  {
  }

  lemma NotBelow(s: real, f: real, i: real)
    requires f >= 1.0 && 1.0 <= f * i && i <= s
    ensures f * s >= 1.0
  {
    MulMonotone(f, i, s);
    assert f * i <= f * s;
  }

  lemma MulStrict(a: real, x: real, y: real)
    requires a > 0.0 && x < y
    ensures a * x < a * y
  {
    PositiveProduct(a, y - x);
    assert a * (y - x) == a * y - a * x;
  }

  /** Limiting a factor to [1 / f, f]. */
  lemma LimitCases(s: real, f: real)
    requires f >= 1.0 && s > 0.0
    ensures s > f ==> Limited(s, f) == f
    ensures 1.0 > f * s ==> Limited(s, f) * f == 1.0
    ensures s <= f && 1.0 <= f * s ==> Limited(s, f) == s
  {
    Inverse(f);
    InverseTimes(f);
    BelowInverse(s, f, 1.0 / f);
  }

  lemma InverseTimes(f: real)
    requires f >= 1.0
    ensures f * (1.0 / f) == 1.0 && 1.0 / f * f == 1.0
  {
  }

  lemma TimesInverse(n: real, l: real, f: real)
    requires l * f == 1.0
    ensures n * l * f == n
  {
    assert n * l * f == n * (l * f);
  }

  lemma LimitedProduct(n: real, s: real, f: real, x: real)
    requires f >= 1.0 && s > 0.0 && x == n * Limited(s, f)
    ensures s > f ==> x == f * n
    ensures 1.0 > f * s ==> x * f == n
    ensures s <= f && 1.0 <= f * s ==> x == n * s
  {
    LimitCases(s, f);
    if 1.0 > f * s {
      TimesInverse(n, Limited(s, f), f);
    }
  }

  lemma FullMoves(n: real, ideal: real, r: real, f: real, x: real)
    requires n > 0.0 && n * r == ideal && r > 0.0 && f >= 1.0 && x == n * Limited(r, f)
    ensures FullMove(n, ideal, f, x)
  {
    LimitedProduct(n, r, f, x);
    RatioAgainst(n, r, ideal, f);
    RatioAgainstInverse(n, r, ideal, f);
  }

  lemma HalfMoves(n: real, ideal: real, r: real, f: real, s: real, x: real)
    requires n > 0.0 && n * r == ideal && f >= 1.0 && s > 0.0 && s * s == r && x == n * Limited(s, f)
    ensures HalfMove(n, ideal, f, x)
  {
    LimitedProduct(n, s, f, x);
    RootAgainst(n, ideal, r, f, s);
    if x == n * s {
      MeanOf(n, s, r, ideal, x);
    }
  }

  lemma RootAgainst(n: real, ideal: real, r: real, f: real, s: real)
    requires n > 0.0 && n * r == ideal && f >= 1.0 && s > 0.0 && s * s == r
    ensures s > f <==> ideal > f * f * n
    ensures 1.0 > f * s <==> n > f * f * ideal
  {
    LimitAbove(n, ideal, r, f, s);
    LimitBelow(n, ideal, r, f, s);
  }

  lemma LimitAbove(n: real, ideal: real, r: real, f: real, s: real)
    requires n > 0.0 && n * r == ideal && f >= 1.0 && s > 0.0 && s * s == r
    ensures s > f <==> ideal > f * f * n
  {
    RootLimitUp(s, r, f);
    RatioAgainst(n, r, ideal, f * f);
  }

  lemma LimitBelow(n: real, ideal: real, r: real, f: real, s: real)
    requires n > 0.0 && n * r == ideal && f >= 1.0 && s > 0.0 && s * s == r
    ensures 1.0 > f * s <==> n > f * f * ideal
  {
    PositiveProduct(f, f);
    LimitBelowBy(n, ideal, r, f, s, f * f);
  }

  lemma LimitBelowBy(n: real, ideal: real, r: real, f: real, s: real, g: real)
    requires n > 0.0 && n * r == ideal && f >= 1.0 && s > 0.0 && s * s == r && g > 0.0 && f * f <= g <= f * f
    ensures 1.0 > f * s <==> n > g * ideal
  {
    RootLimitDown(s, r, f, g);
    RatioAgainstInverse(n, r, ideal, g);
  }

  lemma MeanOf(n: real, s: real, r: real, ideal: real, x: real)
    requires n > 0.0 && s > 0.0 && s * s == r && n * r == ideal && x == n * s
    ensures x >= 0.0 && x * x == n * ideal
  {
    PositiveProduct(n, s);
    SquareOfProduct(n, s, r, ideal);
  }

  lemma RootPositive(s: real, r: real)
    requires s >= 0.0 && s * s == r && r > 0.0
    ensures s > 0.0
  {
    assert s == 0.0 ==> s * s == 0.0;
  }

  /** The unrounded move. */
  lemma ScaledMove(n: real, ideal: real, r: real, f: real, sqrt: Sqrt, x: real)
    requires n > 0.0 && n * r == ideal && r > 0.0 && f >= 1.0 && IsSqrt(sqrt)
    requires x == n * Limited(StepOf(r, sqrt), f)
    ensures MovesTo(n, ideal, f, x)
  {
    RatioAgainst(n, r, ideal, 3.0);
    RatioAgainstInverse(n, r, ideal, 3.0);
    if 1.0 <= 3.0 * r && r <= 3.0 {
      var s := sqrt(r);
      assert s >= 0.0 && s * s == r;
      RootPositive(s, r);
      HalfMoves(n, ideal, r, f, s, x);
    } else {
      FullMoves(n, ideal, r, f, x);
    }
  }

  lemma SquareOfProduct(n: real, s: real, r: real, ideal: real)
    requires s * s == r && n * r == ideal
    ensures (n * s) * (n * s) == n * ideal
  {
    assert (n * s) * (n * s) == n * (n * (s * s));
  }

  /** A root against `f` is its square against `f * f`. */
  lemma RootLimitUp(s: real, r: real, f: real)
    requires s > 0.0 && s * s == r && f >= 1.0
    ensures s > f <==> r > f * f
  {
    if s > f {
      SquaresOrder(s, f);
    } else {
      SquaresUpTo(s, f);
    }
  }

  lemma RootLimitDown(s: real, r: real, f: real, g: real)
    requires s > 0.0 && s * s == r && f >= 1.0 && g == f * f
    ensures 1.0 > f * s <==> 1.0 > g * r
  {
    var t := f * s;
    PositiveProduct(f, s);
    SquareOf(f, s, r, g, t);
    if 1.0 > t {
      SquaresOrder(1.0, t);
    } else {
      SquaresUpTo(1.0, t);
    }
  }

  lemma SquareOf(f: real, s: real, r: real, g: real, t: real)
    requires s * s == r && g == f * f && t == f * s
    ensures t * t == g * r
  {
    assert (f * s) * (f * s) == (f * f) * (s * s);
  }

  lemma SquaresUpTo(x: real, y: real)
    requires 0.0 <= x <= y
    ensures x * x <= y * y
  {
    MulMonotone(x, x, y);
    MulMonotone(y, x, y);
  }

  /** The retarget of a record, in numbers: `window` is twenty target share times or one
      interval, whichever is longer; `observed` is how much of it the record covers; and
      `ideal` is the difficulty at which the credited work, or one share at the current
      difficulty when there is none, would come in one share per target time. Products
      and sums saturate at 64 bits. Between 2/3 and 3/2 of it nothing moves. */
  lemma JudgedInNumbers(c: Config, r: Record, now: nat, current: nat, sqrt: Sqrt,
                        shares: nat, window: nat, observed: nat, work: nat, ideal: real)
    requires ValidConfig(c) && current > 0 && IsSqrt(sqrt) && r.startedAt < now
    requires shares == if 20 * c.targetShareTime < U64_MAX then 20 * c.targetShareTime else U64_MAX
    requires window == 1_000_000_000 * (if shares < c.interval then c.interval else shares)
    requires observed == if now - r.startedAt < window then now - r.startedAt else window
    requires work == if Work(r.shares, now, window) < U64_MAX then Work(r.shares, now, window) else U64_MAX
    requires ideal * observed as real
          == (if work == 0 then current else work) as real * c.targetShareTime as real * 1_000_000_000.0
    ensures var (d, n) := (Judged(c, r, now, current, sqrt), current as real);
            if 2.0 * n <= 3.0 * ideal && 2.0 * ideal <= 3.0 * n then d == current
            else exists x: real :: MovesTo(n, ideal, c.maxFactor, x) && Near(c, x, d)
  {
    var p := Proven(r, now, window, current);
    assert window == Lookback(c) && observed == Observed(r, now, window) && observed > 0;
    IdealIs(c, p, observed, ideal);
    IdealPositive(c, p, observed);
    RetargetInNumbers(c, current, ideal, sqrt);
  }

  lemma RetargetInNumbers(c: Config, current: nat, ideal: real, sqrt: Sqrt)
    requires ValidConfig(c) && current > 0 && IsSqrt(sqrt) && ideal > 0.0
    ensures var (d, n) := (Retarget(c, current, RatioTo(ideal, current), sqrt), current as real);
            if 2.0 * n <= 3.0 * ideal && 2.0 * ideal <= 3.0 * n then d == current
            else exists x: real :: MovesTo(n, ideal, c.maxFactor, x) && Near(c, x, d)
  {
    var (n, ratio) := (current as real, RatioTo(ideal, current));
    RatioScales(ideal, current);
    RatioAgainst(n, ratio, ideal, 1.5);
    RatioAgainstInverse(n, ratio, ideal, 1.5);
    if !InBand(ratio) {
      var x := Scale(current, Limited(StepOf(ratio, sqrt), c.maxFactor));
      ScaledMove(n, ideal, ratio, c.maxFactor, sqrt, x);
      SettleNear(c, x);
    }
  }

  lemma IdealIs(c: Config, p: nat, observed: nat, ideal: real)
    requires observed > 0 && ideal * observed as real == p as real * c.targetShareTime as real * 1_000_000_000.0
    ensures Ideal(c, p, observed) == ideal
  {
    var (o, a) := (observed as real, p as real * c.targetShareTime as real);
    var q := a / (o / 1_000_000_000.0);
    assert q * (o / 1_000_000_000.0) == a;
    assert q * o == a * 1_000_000_000.0;
    CancelLeft(o, q, ideal);
  }

  /** Of two records observed equally long, the one that proves more is never judged to a
      lower difficulty. A silent window proves one share at the current difficulty, so
      it may be outranked only by work of at least that much. */
  lemma JudgedMonotone(c: Config, a: Record, b: Record, now: nat, current: nat, sqrt: Sqrt)
    requires ValidConfig(c) && c.minDifficulty <= current <= c.maxDifficulty && IsSqrt(sqrt)
    requires a.startedAt == b.startedAt
    requires Proven(a, now, Lookback(c), current) <= Proven(b, now, Lookback(c), current)
    ensures Judged(c, a, now, current, sqrt) <= Judged(c, b, now, current, sqrt)
  {
    var w := Lookback(c);
    var (p, q, o) := (Proven(a, now, w, current), Proven(b, now, w, current), Observed(a, now, w));
    if o > 0 {
      IdealPositive(c, p, o);
      RatioScales(Ideal(c, p, o), current);
      RatioMonotone(c, p, q, o, current);
      RetargetMonotone(c, current, Ratio(c, p, o, current), Ratio(c, q, o, current), sqrt);
    }
  }

  /** A silent window has the ratio of the target share time to the time observed. */
  lemma SilentRatio(c: Config, observed: nat, current: nat)
    requires observed > 0 && current > 0
    ensures Ratio(c, current, observed, current) * Seconds(observed) == c.targetShareTime as real
  {
    var (n, t, o) := (current as real, c.targetShareTime as real, Seconds(observed));
    Cancel(n, t, o);
  }

  lemma Cancel(n: real, t: real, o: real)
    requires n > 0.0 && o > 0.0
    ensures n * t / o / n * o == t
  {
    var q := n * t / o;
    assert q * o == n * t;
    var r := q / n;
    assert r * n == q;
    assert (r * n) * o == n * t;
    assert n * (r * o) == n * t;
    CancelLeft(n, r * o, t);
  }

  lemma CancelLeft(n: real, x: real, y: real)
    requires n > 0.0 && n * x == n * y
    ensures x == y
  {
    assert n * (x - y) == 0.0;
  }

  lemma RatioAgainstOne(r: real, o: real, t: real)
    requires o > 0.0 && r * o == t
    ensures r > 1.5 <==> t > 1.5 * o
    ensures t > 0.0 ==> r > 0.0
  {
    if r > 1.5 {
      PositiveProduct(r - 1.5, o);
      assert (r - 1.5) * o == t - 1.5 * o;
    } else {
      MulMonotone(o, r, 1.5);
    }
    if r <= 0.0 {
      MulMonotone(o, r, 0.0);
    }
  }

  /** A miner that has shown nothing is given a harder target exactly when it has been
      observed for less than two thirds of a target share time and rounding does not
      swallow the step: silence is then read as a fast miner. */
  lemma SilenceRaisesIff(c: Config, r: Record, now: nat, current: nat, sqrt: Sqrt)
    requires ValidConfig(c) && c.minDifficulty <= current < c.maxDifficulty && IsSqrt(sqrt)
    requires Work(r.shares, now, Lookback(c)) == 0 && Observed(r, now, Lookback(c)) > 0
    ensures var o := Observed(r, now, Lookback(c));
            Judged(c, r, now, current, sqrt) > current <==>
              && c.targetShareTime as real > 1.5 * Seconds(o)
              && !Swallowed(c, current, Ratio(c, current, o, current), sqrt)
  {
    var o := Observed(r, now, Lookback(c));
    var ratio := Ratio(c, current, o, current);
    SilentRatio(c, o, current);
    RatioAgainstOne(ratio, Seconds(o), c.targetShareTime as real);
    RetargetBetween(c, current, ratio, sqrt);
    RestIff(c, current, ratio, sqrt);
  }

  /** So less than one share at the current difficulty can be judged below silence. */
  lemma SilenceOutranksOneShare(sqrt: Sqrt)
    requires IsSqrt(sqrt)
    ensures exists c: Config, silent: Record, busy: Record, now: nat, current: nat ::
      && ValidConfig(c) && c.minDifficulty <= current <= c.maxDifficulty
      && silent.startedAt == busy.startedAt
      && Work(silent.shares, now, Lookback(c)) < Work(busy.shares, now, Lookback(c))
      && Judged(c, silent, now, current, sqrt) > Judged(c, busy, now, current, sqrt)
  {
    var c := Config(1, 1000, 4.0, 100, 10);
    var (silent, busy) := (Record([], 0), Record([Share(0, 1)], 0));
    var now := 10 * SECOND;
    SilentRatioIs(c, 100);
    assert Lookback(c) == 2000 * SECOND;
    assert Work(busy.shares, now, Lookback(c)) == 1 by { assert busy.shares[1..] == []; }
    assert Judged(c, silent, now, 100, sqrt) == 400;
    assert Ratio(c, 1, now, 100) == 0.1;
    assert Judged(c, busy, now, 100, sqrt) == 25;
  }

  lemma SilentRatioIs(c: Config, current: nat)
    requires c.targetShareTime == 100 && current == 100
    ensures Ratio(c, current, 10 * SECOND, current) == 10.0
  {
    assert Seconds(10 * SECOND) == 10.0;
  }

  // ----- The session's controller -----

  lemma RetainedStep(shares: seq<Share>, i: nat, now: nat, merged: seq<Share>)
    requires i < |shares|
    ensures merged + Retained(shares[i..], now)
         == (if Within(shares[i], now, RETENTION) then merged + [shares[i]] else merged) + Retained(shares[i + 1..], now)
  {
    var rest := shares[i..];
    assert rest[1..] == shares[i + 1..] && rest[0] == shares[i];
  }

  lemma WorkStep(shares: seq<Share>, i: nat, now: nat, window: nat)
    requires i < |shares|
    ensures Work(shares[i..], now, window)
         == (if Within(shares[i], now, window) then shares[i].difficulty else 0) + Work(shares[i + 1..], now, window)
  {
    var rest := shares[i..];
    assert rest[1..] == shares[i + 1..] && rest[0] == shares[i];
  }

  class Vardiff {
    const cfg: Config
    var shareTimes: seq<Share>
    var lastRetarget: nat
    var current: nat
    var previous: nat
    var startedAt: nat
    var suggestApplied: bool

    function History(): Record reads this { Record(shareTimes, startedAt) }

    predicate InRange(d: nat) { cfg.minDifficulty <= d <= cfg.maxDifficulty }

    constructor (cfg: Config, initialDifficulty: nat, now: nat)
      ensures this.cfg == cfg && History() == Record([], now) && lastRetarget == now
      ensures current == previous == initialDifficulty && !suggestApplied
    {
      this.cfg := cfg;
      shareTimes := [];
      lastRetarget := now;
      current := initialDifficulty;
      previous := initialDifficulty;
      startedAt := now;
      suggestApplied := false;
    }

    /** A hint sets the starting point. Only the first of a session delays the next
        retarget, so a client that repeats itself cannot hold it off. */
    method Suggest(difficulty: nat, now: nat) returns (applied: nat)
      requires ValidConfig(cfg)
      modifies this`current, this`previous, this`suggestApplied, this`lastRetarget
      ensures applied == current && InRange(current)
      ensures InRange(difficulty) ==> current == difficulty
      ensures difficulty <= cfg.minDifficulty ==> current == cfg.minDifficulty
      ensures difficulty >= cfg.maxDifficulty ==> current == cfg.maxDifficulty
      ensures previous == if current == old(current) then old(previous) else old(current)
      ensures suggestApplied && lastRetarget == if old(suggestApplied) then old(lastRetarget) else now
    {
      applied := ClampInt(difficulty, cfg.minDifficulty, cfg.maxDifficulty);
      SetCurrent(applied);
      if !suggestApplied {
        suggestApplied := true;
        lastRetarget := now;
      }
    }

    method SetCurrent(difficulty: nat)
      modifies this`current, this`previous
      ensures current == difficulty
      ensures previous == if difficulty == old(current) then old(previous) else old(current)
    {
      if difficulty != current {
        previous := current;
        current := difficulty;
      }
    }

    /** The credit is a threshold the session has held, and one the hash reached
        unless it is only the floor. */
    function CreditFor(hashDifficulty: nat): (credit: nat)
      reads this
      ensures credit in {current, previous, cfg.minDifficulty}
      ensures credit <= hashDifficulty || credit == cfg.minDifficulty
      ensures hashDifficulty >= current ==> credit == current
      ensures credit != current && hashDifficulty >= previous ==> credit == previous
    {
      if hashDifficulty >= current then current
      else if hashDifficulty >= previous then previous
      else cfg.minDifficulty
    }

    method RecordShare(difficulty: nat, now: nat)
      modifies this`shareTimes
      ensures exists k: nat :: Trimmed(old(shareTimes) + [Share(now, difficulty)], shareTimes, now, k)
      ensures History() == Recorded(old(History()), now, difficulty)
    {
      EvictTrims(shareTimes + [Share(now, difficulty)], 0, now);
      shareTimes := shareTimes + [Share(now, difficulty)];
      while shareTimes != [] && Age(now, shareTimes[0].at) > RETENTION
        invariant Evict(shareTimes, now) == Evict(old(shareTimes) + [Share(now, difficulty)], now)
        decreases |shareTimes|
      {
        shareTimes := shareTimes[1..];
      }
    }

    /** Detach the record, leaving an empty one anchored now. */
    method TakeShareHistory(now: nat) returns (history: Record)
      modifies this`shareTimes, this`startedAt
      ensures history == old(History()) && History() == Record([], now)
    {
      history := Record(shareTimes, startedAt);
      shareTimes := [];
      startedAt := now;
    }

    method RestoreShareHistory(history: Record, now: nat)
      modifies this`shareTimes, this`startedAt
      ensures startedAt <= old(startedAt) && startedAt <= history.startedAt
      ensures startedAt == old(startedAt) || startedAt == history.startedAt
      ensures shareTimes == Retained(history.shares, now) + old(shareTimes)
      ensures History() == Restored(old(History()), history, now)
    {
      var merged: seq<Share> := [];
      var i := 0;
      while i < |history.shares|
        invariant 0 <= i <= |history.shares|
        invariant merged + Retained(history.shares[i..], now) == Retained(history.shares, now)
        modifies {}
      {
        RetainedStep(history.shares, i, now, merged);
        if Age(now, history.shares[i].at) <= RETENTION {
          merged := merged + [history.shares[i]];
        }
        i := i + 1;
      }
      assert merged == Retained(history.shares, now);
      shareTimes := merged + shareTimes;
      startedAt := if startedAt < history.startedAt then startedAt else history.startedAt;
    }

    /** Work credited inside the trailing window, saturating, and how much of the
        window was observed. */
    method WorkInWindow(window: nat, now: nat) returns (work: nat, observed: nat)
      ensures work == Capped(Work(shareTimes, now, window))
      ensures now < startedAt ==> observed == 0
      ensures startedAt <= now < startedAt + window ==> observed == now - startedAt
      ensures startedAt + window <= now ==> observed == window
      ensures observed == Observed(History(), now, window)
    {
      observed := if Age(now, startedAt) < window then Age(now, startedAt) else window;
      work := 0;
      var i := 0;
      while i < |shareTimes|
        invariant 0 <= i <= |shareTimes|
        invariant work <= U64_MAX
        invariant Capped(work + Work(shareTimes[i..], now, window)) == Capped(Work(shareTimes, now, window))
      {
        WorkStep(shareTimes, i, now, window);
        if Age(now, shareTimes[i].at) <= window {
          work := Capped(work + shareTimes[i].difficulty);
        }
        i := i + 1;
      }
    }

    /** Before the interval is over nothing changes. When it is, the difficulty
        becomes the judged one; a change is reported, kept inside the range and
        remembered as the previous assignment. */
    method CheckRetarget(now: nat, sqrt: Sqrt) returns (change: Option<nat>)
      requires ValidConfig(cfg)
      modifies this`current, this`previous, this`lastRetarget
      ensures now < old(lastRetarget) + cfg.interval * 1_000_000_000 ==>
        change == None && lastRetarget == old(lastRetarget) && current == old(current)
      ensures now >= old(lastRetarget) + cfg.interval * 1_000_000_000 ==>
        lastRetarget == now && current == Judged(cfg, History(), now, old(current), sqrt)
      ensures change == if current == old(current) then None else Some(current)
      ensures change.Some? ==> InRange(current)
      ensures previous == if current == old(current) then old(previous) else old(current)
    {
      if Age(now, lastRetarget) < cfg.interval * SECOND {
        return None;
      }
      lastRetarget := now;
      var window := Capped(cfg.targetShareTime * RETARGET_WINDOW_SHARES);
      if window < cfg.interval {
        window := cfg.interval;
      }
      var work, observed := WorkInWindow(window * SECOND, now);
      if observed == 0 {
        return None;
      }
      if current == 0 {
        SetCurrent(cfg.minDifficulty);
        return Some(cfg.minDifficulty);
      }
      var proven := if work == 0 then current else work;
      var ratio := Ratio(cfg, proven, observed, current);
      if InBand(ratio) {
        return None;
      }
      var difficulty := Settle(cfg, Scale(current, Limited(StepOf(ratio, sqrt), cfg.maxFactor)));
      if difficulty == current {
        return None;
      }
      SetCurrent(difficulty);
      return Some(difficulty);
    }
  }
}
