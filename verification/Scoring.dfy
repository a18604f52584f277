/**
  Chain scoring V1 in exact arithmetic: the engine of
  apps/cre-workflows/src/scoring-engine.ts and its inlined second copy in
  apps/cre-runtime/cre-evaluator/main.ts. Numbers are reals and rounding to six decimals is
  half-up. This module scores one chain against given bounds; `Ranking` derives the bounds
  and orders the chains.
 */
module Scoring {

  // ----- Settings -----

  datatype Metric = Fee | Latency | Reliability | Liquidity

  /** One value per metric. */
  datatype Profile<T> = Profile(fee: T, latency: T, reliability: T, liquidity: T) {
    function Get(k: Metric): T {
      match k
      case Fee => fee
      case Latency => latency
      case Reliability => reliability
      case Liquidity => liquidity
    }

    function Set(k: Metric, x: T): Profile<T> {
      match k
      case Fee => this.(fee := x)
      case Latency => this.(latency := x)
      case Reliability => this.(reliability := x)
      case Liquidity => this.(liquidity := x)
    }
  }

  /** The least and greatest raw value of a metric. */
  datatype Bounds = Bounds(min: real, max: real)

  const EPSILON: real := 0.000000001
  const MICRO: real := 1000000.0
  const WEIGHTS: Profile<real> := Profile(0.35, 0.3, 0.25, 0.1)

  predicate LowerBetter(k: Metric) {
    k.Fee? || k.Latency?
  }

  function Abs(x: real): real {
    if x < 0.0 then -x else x
  }

  // ----- The two normalisations -----

  function Normalize(b: Bounds, raw: real, lowerBetter: bool): real {
    var range := b.max - b.min;
    if Abs(range) <= EPSILON then 1.0
    else
      var n := (raw - b.min) / range;
      if lowerBetter then 1.0 - n else n
  }

  function NormalizeInline(b: Bounds, raw: real, lowerBetter: bool): real {
    var range := b.max - b.min;
    if range < EPSILON then 1.0
    else if lowerBetter then (b.max - raw) / range
    else (raw - b.min) / range
  }

  // ----- Rounding and scores -----

  function Round(x: real): real {
    (x * MICRO + 0.5).Floor as real / MICRO
  }

  /** The share of the metric's weight that a normalised value earns. */
  function Weighted(n: real, k: Metric): real {
    match k
    case Fee => Round(n * 0.35)
    case Latency => Round(n * 0.3)
    case Reliability => Round(n * 0.25)
    case Liquidity => Round(n * 0.1)
  }

  function Component(b: Bounds, raw: real, k: Metric): real {
    Weighted(Normalize(b, raw, LowerBetter(k)), k)
  }

  function ComponentInline(b: Bounds, raw: real, k: Metric): real {
    Weighted(NormalizeInline(b, raw, LowerBetter(k)), k)
  }

  function Components(bs: Profile<Bounds>, raws: Profile<real>): Profile<real> {
    Profile(Component(bs.fee, raws.fee, Fee), Component(bs.latency, raws.latency, Latency),
            Component(bs.reliability, raws.reliability, Reliability), Component(bs.liquidity, raws.liquidity,
                Liquidity))
  }

  function ComponentsInline(bs: Profile<Bounds>, raws: Profile<real>): Profile<real> {
    Profile(ComponentInline(bs.fee, raws.fee, Fee), ComponentInline(bs.latency, raws.latency, Latency),
            ComponentInline(bs.reliability, raws.reliability, Reliability), ComponentInline(bs.liquidity,
                raws.liquidity, Liquidity))
  }

  function Score(components: Profile<real>): real {
    Round(components.fee + components.latency + components.reliability + components.liquidity)
  }

  // ----- Lemmas about numbers -----

  /** A number of whole millionths. */
  ghost predicate IsMicro(x: real) {
    (x * MICRO).Floor as real == x * MICRO
  }

  lemma {:induction false} RoundIsMicro(x: real)
    ensures IsMicro(Round(x))
  {
    var n := (x * MICRO + 0.5).Floor;
    assert n as real / MICRO * MICRO == n as real;
  }

  /** Rounding gives the whole number of millionths next to `x`, the upper one at a half. */
  lemma {:induction false} RoundsHalfUp(x: real)
    ensures var n := (x * 1000000.0 + 0.5).Floor;
            Round(x) * 1000000.0 == n as real && n as real - 0.5 <= x * 1000000.0 < n as real + 0.5
  {
    RoundIsMicro(x);
  }

  lemma {:induction false} RoundOfMicro(x: real)
    requires IsMicro(x)
    ensures Round(x) == x
  {
    assert (x * MICRO + 0.5).Floor == (x * MICRO).Floor;
  }

  lemma {:induction false} WholeFloor(x: real, n: int)
    requires x == n as real
    ensures x.Floor == n
  {
  }

  lemma {:induction false} IntsAddAsReals(n: int, m: int)
    ensures n as real + m as real == (n + m) as real
  {
  }

  lemma {:induction false} ScaledSum(x: real, y: real)
    ensures (x + y) * MICRO == x * MICRO + y * MICRO
  {
  }

  lemma {:induction false} MicrosAdd(x: real, y: real)
    requires IsMicro(x) && IsMicro(y)
    ensures IsMicro(x + y)
  {
    var n, m := (x * MICRO).Floor, (y * MICRO).Floor;
    ScaledSum(x, y);
    IntsAddAsReals(n, m);
    WholeFloor((x + y) * MICRO, n + m);
  }

  /** Whole millionths that tie within epsilon are equal. */
  lemma {:induction false} MicrosTie(x: real, y: real)
    requires IsMicro(x) && IsMicro(y)
    ensures Abs(x - y) <= EPSILON <==> x == y
  {
    var n, m := (x * MICRO).Floor, (y * MICRO).Floor;
    if n != m {
      assert n - m <= -1 || 1 <= n - m;
      assert (x - y) * MICRO == (n - m) as real;
    }
  }

  lemma {:induction false} FloorMonotonic(x: real, y: real)
    requires x <= y
    ensures x.Floor <= y.Floor
  {
  }

  lemma {:induction false} MicrosOrdered(n: int, m: int)
    requires n <= m
    ensures n as real / MICRO <= m as real / MICRO
  {
  }

  lemma {:induction false} RoundMonotonic(x: real, y: real)
    requires x <= y
    ensures Round(x) <= Round(y)
  {
    FloorMonotonic(x * MICRO + 0.5, y * MICRO + 0.5);
    MicrosOrdered((x * MICRO + 0.5).Floor, (y * MICRO + 0.5).Floor);
  }

  lemma {:induction false} FractionBounds(x: real, r: real)
    requires r > 0.0 && 0.0 <= x <= r
    ensures 0.0 <= x / r <= 1.0
  {
  }

  lemma {:induction false} FractionMonotonic(x: real, y: real, r: real)
    requires r > 0.0 && x <= y
    ensures x / r <= y / r
  {
  }

  lemma {:induction false} FractionComplement(x: real, r: real)
    requires r > 0.0
    ensures 1.0 - x / r == (r - x) / r
  {
    var a, b := x / r, (r - x) / r;
    SumIsOne(a, b, x, r - x, r);
  }

  lemma {:induction false} SumIsOne(a: real, b: real, x: real, y: real, r: real)
    requires r > 0.0 && a * r == x && b * r == y && x + y == r
    ensures a + b == 1.0
  {
    assert (a + b - 1.0) * r == 0.0;
  }

  lemma {:induction false} WeightedMonotonic(n: real, m: real, k: Metric)
    requires n <= m
    ensures Weighted(n, k) <= Weighted(m, k)
  {
    match k
    case Fee => RoundMonotonic(n * 0.35, m * 0.35);
    case Latency => RoundMonotonic(n * 0.3, m * 0.3);
    case Reliability => RoundMonotonic(n * 0.25, m * 0.25);
    case Liquidity => RoundMonotonic(n * 0.1, m * 0.1);
  }

  lemma {:induction false} WeightedIsMicro(n: real, k: Metric)
    ensures IsMicro(Weighted(n, k))
  {
    match k
    case Fee => RoundIsMicro(n * 0.35);
    case Latency => RoundIsMicro(n * 0.3);
    case Reliability => RoundIsMicro(n * 0.25);
    case Liquidity => RoundIsMicro(n * 0.1);
  }

  /** Nothing earns nothing and everything earns the whole weight. */
  lemma {:induction false} WeightedEnds(k: Metric)
    ensures Weighted(0.0, k) == 0.0 && Weighted(1.0, k) == WEIGHTS.Get(k)
  {
    assert IsMicro(0.0) && IsMicro(WEIGHTS.Get(k));
    RoundOfMicro(0.0);
    RoundOfMicro(WEIGHTS.Get(k));
  }

  // ----- One component -----

  ghost predicate InBounds(b: Bounds, raw: real) {
    b.min <= raw <= b.max
  }

  ghost predicate AllInBounds(bs: Profile<Bounds>, raws: Profile<real>) {
    forall k: Metric :: InBounds(bs.Get(k), raws.Get(k))
  }

  lemma {:induction false} NormalizeBounds(b: Bounds, raw: real, lowerBetter: bool)
    requires InBounds(b, raw)
    ensures 0.0 <= Normalize(b, raw, lowerBetter) <= 1.0
  {
    if Abs(b.max - b.min) > EPSILON {
      FractionBounds(raw - b.min, b.max - b.min);
    }
  }

  lemma {:induction false} ComponentBounds(b: Bounds, raw: real, k: Metric)
    requires InBounds(b, raw)
    ensures 0.0 <= Component(b, raw, k) <= WEIGHTS.Get(k) && IsMicro(Component(b, raw, k))
  {
    var n := Normalize(b, raw, LowerBetter(k));
    NormalizeBounds(b, raw, LowerBetter(k));
    WeightedEnds(k);
    WeightedMonotonic(0.0, n, k);
    WeightedMonotonic(n, 1.0, k);
    WeightedIsMicro(n, k);
  }

  predicate NoWorse(x: real, y: real, k: Metric) {
    if LowerBetter(k) then x <= y else x >= y
  }

  lemma {:induction false} NormalizeMonotonic(b: Bounds, x: real, y: real, k: Metric)
    requires b.min <= b.max && NoWorse(x, y, k)
    ensures Normalize(b, x, LowerBetter(k)) >= Normalize(b, y, LowerBetter(k))
  {
    if Abs(b.max - b.min) > EPSILON {
      if LowerBetter(k) {
        FractionMonotonic(x - b.min, y - b.min, b.max - b.min);
      } else {
        FractionMonotonic(y - b.min, x - b.min, b.max - b.min);
      }
    }
  }

  lemma {:induction false} ComponentMonotonic(b: Bounds, x: real, y: real, k: Metric)
    requires b.min <= b.max && NoWorse(x, y, k)
    ensures Component(b, x, k) >= Component(b, y, k)
  {
    NormalizeMonotonic(b, x, y, k);
    WeightedMonotonic(Normalize(b, y, LowerBetter(k)), Normalize(b, x, LowerBetter(k)), k);
  }

  // ----- The score -----

  ghost predicate AllMicro(c: Profile<real>) {
    IsMicro(c.fee) && IsMicro(c.latency) && IsMicro(c.reliability) && IsMicro(c.liquidity)
  }

  lemma {:induction false} ScoreOfMicros(c: Profile<real>)
    requires AllMicro(c)
    ensures Score(c) == c.fee + c.latency + c.reliability + c.liquidity && IsMicro(Score(c))
  {
    MicrosAdd(c.fee, c.latency);
    MicrosAdd(c.fee + c.latency, c.reliability);
    MicrosAdd(c.fee + c.latency + c.reliability, c.liquidity);
    RoundOfMicro(c.fee + c.latency + c.reliability + c.liquidity);
  }

  lemma {:induction false} ComponentsBounds(bs: Profile<Bounds>, raws: Profile<real>)
    requires AllInBounds(bs, raws)
    ensures AllMicro(Components(bs, raws))
    ensures forall k: Metric :: 0.0 <= Components(bs, raws).Get(k) <= WEIGHTS.Get(k)
  {
    assert InBounds(bs.Get(Fee), raws.Get(Fee)) && InBounds(bs.Get(Latency), raws.Get(Latency));
    assert InBounds(bs.Get(Reliability), raws.Get(Reliability)) && InBounds(bs.Get(Liquidity), raws.Get(Liquidity));
    ComponentBounds(bs.fee, raws.fee, Fee);
    ComponentBounds(bs.latency, raws.latency, Latency);
    ComponentBounds(bs.reliability, raws.reliability, Reliability);
    ComponentBounds(bs.liquidity, raws.liquidity, Liquidity);
  }

  /**
    Every score lies between 0 and 1 and is the exact sum of the rounded components:
    rounding the sum again changes nothing.
   */
  lemma {:induction false} ScoreInUnitInterval(bs: Profile<Bounds>, raws: Profile<real>)
    requires AllInBounds(bs, raws)
    ensures var c := Components(bs, raws);
            0.0 <= Score(c) <= 1.0 && Score(c) == c.fee + c.latency + c.reliability + c.liquidity
  {
    var c := Components(bs, raws);
    ComponentsBounds(bs, raws);
    ScoreOfMicros(c);
    WithinUnit(c);
  }

  lemma {:induction false} WithinUnit(c: Profile<real>)
    requires forall k: Metric :: 0.0 <= c.Get(k) <= WEIGHTS.Get(k)
    ensures 0.0 <= c.fee + c.latency + c.reliability + c.liquidity <= 1.0
  {
    assert 0.0 <= c.Get(Fee) <= WEIGHTS.Get(Fee) && 0.0 <= c.Get(Latency) <= WEIGHTS.Get(Latency);
    assert 0.0 <= c.Get(Reliability) <= WEIGHTS.Get(Reliability) && 0.0 <= c.Get(Liquidity) <= WEIGHTS.Get(Liquidity);
  }

  /** `x` is at least as good as `y` on all four metrics: no dearer, no slower, as reliable and as liquid. */
  ghost predicate AtLeastAsGood(x: Profile<real>, y: Profile<real>) {
    x.fee <= y.fee && x.latency <= y.latency && x.reliability >= y.reliability && x.liquidity >= y.liquidity
  }

  lemma {:induction false} NoWorseAnywhere(x: Profile<real>, y: Profile<real>)
    requires AtLeastAsGood(x, y)
    ensures NoWorse(x.fee, y.fee, Fee) && NoWorse(x.latency, y.latency, Latency)
    ensures NoWorse(x.reliability, y.reliability, Reliability) && NoWorse(x.liquidity, y.liquidity, Liquidity)
  {
  }

  ghost predicate Dominates(c: Profile<real>, d: Profile<real>) {
    c.fee >= d.fee && c.latency >= d.latency && c.reliability >= d.reliability && c.liquidity >= d.liquidity
  }

  lemma {:induction false} ComponentsMonotonic(bs: Profile<Bounds>, x: Profile<real>, y: Profile<real>)
    requires AllInBounds(bs, x) && AtLeastAsGood(x, y)
    ensures Dominates(Components(bs, x), Components(bs, y))
  {
    assert InBounds(bs.Get(Fee), x.Get(Fee)) && InBounds(bs.Get(Latency), x.Get(Latency));
    assert InBounds(bs.Get(Reliability), x.Get(Reliability)) && InBounds(bs.Get(Liquidity), x.Get(Liquidity));
    NoWorseAnywhere(x, y);
    ComponentMonotonic(bs.fee, x.fee, y.fee, Fee);
    ComponentMonotonic(bs.latency, x.latency, y.latency, Latency);
    ComponentMonotonic(bs.reliability, x.reliability, y.reliability, Reliability);
    ComponentMonotonic(bs.liquidity, x.liquidity, y.liquidity, Liquidity);
  }

  lemma {:induction false} ScoreMonotonic(c: Profile<real>, d: Profile<real>)
    requires Dominates(c, d)
    ensures Score(c) >= Score(d)
  {
    RoundMonotonic(d.fee + d.latency + d.reliability + d.liquidity, c.fee + c.latency + c.reliability + c.liquidity);
  }

  /** A chain at least as good on all four metrics never scores lower. */
  lemma {:induction false} BetterScoresNoLower(bs: Profile<Bounds>, x: Profile<real>, y: Profile<real>)
    requires AllInBounds(bs, x) && AtLeastAsGood(x, y)
    ensures Score(Components(bs, x)) >= Score(Components(bs, y))
  {
    ComponentsMonotonic(bs, x, y);
    ScoreMonotonic(Components(bs, x), Components(bs, y));
  }

  // ----- Which end of a range earns the weight -----

  /** The four ends that are best: the least fee and latency, the greatest reliability and liquidity. */
  ghost function Best(bs: Profile<Bounds>): Profile<real> {
    Profile(bs.fee.min, bs.latency.min, bs.reliability.max, bs.liquidity.max)
  }

  ghost function Worst(bs: Profile<Bounds>): Profile<real> {
    Profile(bs.fee.max, bs.latency.max, bs.reliability.min, bs.liquidity.min)
  }

  ghost predicate WideRange(b: Bounds) {
    b.max - b.min > 0.000000001
  }

  lemma {:induction false} LowerEnds(b: Bounds, k: Metric)
    requires WideRange(b) && (k.Fee? || k.Latency?)
    ensures Component(b, b.min, k) == WEIGHTS.Get(k) && Component(b, b.max, k) == 0.0
    ensures ComponentInline(b, b.min, k) == WEIGHTS.Get(k) && ComponentInline(b, b.max, k) == 0.0
  {
    EndsOfRange(b);
    WeightedEnds(k);
  }

  lemma {:induction false} UpperEnds(b: Bounds, k: Metric)
    requires WideRange(b) && (k.Reliability? || k.Liquidity?)
    ensures Component(b, b.max, k) == WEIGHTS.Get(k) && Component(b, b.min, k) == 0.0
    ensures ComponentInline(b, b.max, k) == WEIGHTS.Get(k) && ComponentInline(b, b.min, k) == 0.0
  {
    EndsOfRange(b);
    WeightedEnds(k);
  }

  lemma {:induction false} EndsOfRange(b: Bounds)
    requires WideRange(b)
    ensures Normalize(b, b.min, true) == 1.0 && Normalize(b, b.max, true) == 0.0
    ensures Normalize(b, b.min, false) == 0.0 && Normalize(b, b.max, false) == 1.0
    ensures NormalizeInline(b, b.min, true) == 1.0 && NormalizeInline(b, b.max, true) == 0.0
    ensures NormalizeInline(b, b.min, false) == 0.0 && NormalizeInline(b, b.max, false) == 1.0
  {
    NothingOver(b.max - b.min);
    WholeOver(b.max - b.min);
  }

  lemma {:induction false} WholeOver(r: real)
    requires r > 0.0
    ensures r / r == 1.0
  {
  }

  /**
    Wherever the ranges are wider than epsilon, in both copies the least fee earns 0.35, the
    least latency 0.3, the greatest reliability 0.25 and the greatest liquidity 0.1, and the
    other end of each range earns nothing.
   */
  lemma {:induction false} EndsEarn(bs: Profile<Bounds>)
    requires WideRange(bs.fee) && WideRange(bs.latency) && WideRange(bs.reliability) && WideRange(bs.liquidity)
    ensures Components(bs, Best(bs)) == ComponentsInline(bs, Best(bs)) == Profile(0.35, 0.3, 0.25, 0.1)
    ensures Components(bs, Worst(bs)) == ComponentsInline(bs, Worst(bs)) == Profile(0.0, 0.0, 0.0, 0.0)
  {
    LowerEnds(bs.fee, Fee);
    LowerEnds(bs.latency, Latency);
    UpperEnds(bs.reliability, Reliability);
    UpperEnds(bs.liquidity, Liquidity);
  }

  lemma {:induction false} RoundClose(x: real)
    ensures -0.0000005 < Round(x) - x <= 0.0000005
  {
    var n := (x * MICRO + 0.5).Floor;
    assert n as real <= x * MICRO + 0.5 < n as real + 1.0;
  }

  /** How far a value is from the bad end of its range. */
  ghost function Merit(b: Bounds, raw: real, k: Metric): real {
    match k
    case Fee => b.max - raw
    case Latency => b.max - raw
    case Reliability => raw - b.min
    case Liquidity => raw - b.min
  }

  lemma {:induction false} MeritIsShare(b: Bounds, raw: real, k: Metric)
    requires WideRange(b)
    ensures Normalize(b, raw, LowerBetter(k)) * (b.max - b.min) == Merit(b, raw, k)
  {
    FractionComplement(raw - b.min, b.max - b.min);
  }

  lemma {:induction false} WeightedClose(n: real, k: Metric)
    ensures n * WEIGHTS.Get(k) - 0.0000005 < Weighted(n, k) <= n * WEIGHTS.Get(k) + 0.0000005
  {
    match k
    case Fee => RoundClose(n * 0.35);
    case Latency => RoundClose(n * 0.3);
    case Reliability => RoundClose(n * 0.25);
    case Liquidity => RoundClose(n * 0.1);
  }

  lemma {:induction false} ScaledBounds(c: real, n: real, w: real, half: real, r: real, m: real)
    requires r > 0.0 && n * r == m && n * w - half < c <= n * w + half
    ensures m * w - half * r < c * r <= m * w + half * r
  {
    assert (n * w - half) * r == m * w - half * r && (n * w + half) * r == m * w + half * r;
    assert (c - (n * w - half)) * r > 0.0 && ((n * w + half) - c) * r >= 0.0;
  }

  lemma {:induction false} ShareBounds(c: real, n: real, k: Metric, r: real, m: real)
    requires r > 0.0 && n * r == m && c == Weighted(n, k)
    ensures m * WEIGHTS.Get(k) - 0.0000005 * r < c * r <= m * WEIGHTS.Get(k) + 0.0000005 * r
  {
    WeightedClose(n, k);
    ScaledBounds(c, n, WEIGHTS.Get(k), 0.0000005, r, m);
  }

  /**
    On a range wider than epsilon a component is the weight's share of the value's distance
    from the bad end, to half a millionth.
   */
  lemma {:induction false} ComponentIsShare(b: Bounds, raw: real, k: Metric)
    requires WideRange(b)
    ensures var c, r, m, w := Component(b, raw, k), b.max - b.min, Merit(b, raw, k), WEIGHTS.Get(k);
            m * w - 0.0000005 * r < c * r <= m * w + 0.0000005 * r
  {
    MeritIsShare(b, raw, k);
    ShareBounds(Component(b, raw, k), Normalize(b, raw, LowerBetter(k)), k, b.max - b.min, Merit(b, raw, k));
  }

  /** On a range no wider than epsilon it is the whole weight; in the copy, on a narrower one. */
  lemma {:induction false} NarrowRangeEarnsAll(b: Bounds, raw: real, k: Metric)
    requires 0.0 <= b.max - b.min <= 0.000000001
    ensures Component(b, raw, k) == WEIGHTS.Get(k)
    ensures b.max - b.min < 0.000000001 ==> ComponentInline(b, raw, k) == WEIGHTS.Get(k)
  {
    WeightedEnds(k);
  }

  // ----- The two copies -----

  lemma {:induction false} NormalizationsAgree(b: Bounds, raw: real, lowerBetter: bool)
    requires b.min <= b.max && b.max - b.min != EPSILON
    ensures Normalize(b, raw, lowerBetter) == NormalizeInline(b, raw, lowerBetter)
  {
    if b.max - b.min > EPSILON {
      FractionComplement(raw - b.min, b.max - b.min);
    }
  }

  lemma {:induction false} ComponentAgrees(b: Bounds, raw: real, k: Metric)
    requires b.min <= b.max && b.max - b.min != EPSILON
    ensures Component(b, raw, k) == ComponentInline(b, raw, k)
  {
    NormalizationsAgree(b, raw, LowerBetter(k));
  }

  /** At a range of exactly epsilon the engine gives full marks to the worst value, its copy none. */
  lemma {:induction false} ComponentDiffers(b: Bounds, k: Metric)
    requires b.max - b.min == 0.000000001
    ensures var worst := if LowerBetter(k) then b.max else b.min;
            Component(b, worst, k) == WEIGHTS.Get(k) && ComponentInline(b, worst, k) == 0.0
  {
    var worst := if LowerBetter(k) then b.max else b.min;
    WeightedEnds(k);
    NothingOver(b.max - b.min);
    assert NormalizeInline(b, worst, LowerBetter(k)) == 0.0;
    assert Normalize(b, worst, LowerBetter(k)) == 1.0;
  }

  lemma {:induction false} NothingOver(r: real)
    requires r > 0.0
    ensures 0.0 / r == 0.0
  {
  }

  ghost predicate NoRangeIsEpsilon(bs: Profile<Bounds>) {
    forall k: Metric :: bs.Get(k).max - bs.Get(k).min != EPSILON
  }

  lemma {:induction false} ComponentsAgree(bs: Profile<Bounds>, raws: Profile<real>)
    requires AllInBounds(bs, raws) && NoRangeIsEpsilon(bs)
    ensures Components(bs, raws) == ComponentsInline(bs, raws)
  {
    assert InBounds(bs.Get(Fee), raws.Get(Fee)) && InBounds(bs.Get(Latency), raws.Get(Latency));
    assert InBounds(bs.Get(Reliability), raws.Get(Reliability)) && InBounds(bs.Get(Liquidity), raws.Get(Liquidity));
    assert bs.Get(Fee) == bs.fee && bs.Get(Latency) == bs.latency;
    assert bs.Get(Reliability) == bs.reliability && bs.Get(Liquidity) == bs.liquidity;
    ComponentAgrees(bs.fee, raws.fee, Fee);
    ComponentAgrees(bs.latency, raws.latency, Latency);
    ComponentAgrees(bs.reliability, raws.reliability, Reliability);
    ComponentAgrees(bs.liquidity, raws.liquidity, Liquidity);
  }

  lemma {:induction false} ComponentInlineMonotonic(b: Bounds, x: real, y: real, k: Metric)
    requires NoWorse(x, y, k)
    ensures ComponentInline(b, x, k) >= ComponentInline(b, y, k)
  {
    NormalizeInlineMonotonic(b, x, y, k);
    WeightedMonotonic(NormalizeInline(b, y, LowerBetter(k)), NormalizeInline(b, x, LowerBetter(k)), k);
  }

  lemma {:induction false} NormalizeInlineMonotonic(b: Bounds, x: real, y: real, k: Metric)
    requires NoWorse(x, y, k)
    ensures NormalizeInline(b, x, LowerBetter(k)) >= NormalizeInline(b, y, LowerBetter(k))
  {
    if b.max - b.min >= EPSILON {
      if LowerBetter(k) {
        FractionMonotonic(b.max - y, b.max - x, b.max - b.min);
      } else {
        FractionMonotonic(y - b.min, x - b.min, b.max - b.min);
      }
    }
  }

  lemma {:induction false} ComponentsInlineMonotonic(bs: Profile<Bounds>, x: Profile<real>, y: Profile<real>)
    requires AtLeastAsGood(x, y)
    ensures Dominates(ComponentsInline(bs, x), ComponentsInline(bs, y))
  {
    NoWorseAnywhere(x, y);
    ComponentInlineMonotonic(bs.fee, x.fee, y.fee, Fee);
    ComponentInlineMonotonic(bs.latency, x.latency, y.latency, Latency);
    ComponentInlineMonotonic(bs.reliability, x.reliability, y.reliability, Reliability);
    ComponentInlineMonotonic(bs.liquidity, x.liquidity, y.liquidity, Liquidity);
  }

  lemma {:induction false} ComponentInlineIsMicro(b: Bounds, raw: real, k: Metric)
    ensures IsMicro(ComponentInline(b, raw, k))
  {
    WeightedIsMicro(NormalizeInline(b, raw, LowerBetter(k)), k);
  }

  lemma {:induction false} ComponentsInlineAreMicros(bs: Profile<Bounds>, raws: Profile<real>)
    ensures AllMicro(ComponentsInline(bs, raws))
  {
    ComponentInlineIsMicro(bs.fee, raws.fee, Fee);
    ComponentInlineIsMicro(bs.latency, raws.latency, Latency);
    ComponentInlineIsMicro(bs.reliability, raws.reliability, Reliability);
    ComponentInlineIsMicro(bs.liquidity, raws.liquidity, Liquidity);
  }

  /** Two chains, one no worse in any component, tie only with the same components. */
  lemma {:induction false} DominatedTie(c: Profile<real>, d: Profile<real>)
    requires AllMicro(c) && AllMicro(d) && Dominates(c, d) && Score(c) == Score(d)
    ensures c == d
  {
    ScoreOfMicros(c);
    ScoreOfMicros(d);
  }
}
