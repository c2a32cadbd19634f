/** Interval schedules whose steps grow or shrink: the closed form of the next fire time against
    the plain definition that adds one step at a time. Times are exact reals. */
module Schedule {
  import opened Options
  import opened Reals

  /** An interval schedule: each step is `multiplier` times the one before, no longer than `max`
      when it grows and no shorter than `min` when it shrinks. */
  datatype Interval = Interval(interval: real, multiplier: real, min: Option<real>, max: Option<real>)

  /** What the configuration validates. */
  predicate Valid(s: Interval) {
    && s.interval > 0.0 && s.multiplier > 0.0
    && (s.min.Some? ==> 0.0 < s.min.value <= s.interval)
    && (s.max.Some? ==> s.interval <= s.max.value)
  }

  function Pow(m: real, n: nat): real {
    if n == 0 then 1.0 else Times(m, Pow(m, n - 1))
  }

  // ---------------------------------------------------------------- the plain definition

  /** The limit that applies: growing steps have a ceiling, shrinking ones a floor. */
  function Limit(s: Interval): Option<real> {
    if s.multiplier < 1.0 then s.min else if s.multiplier > 1.0 then s.max else None
  }

  function Step(s: Interval, j: nat): real {
    var free := Times(s.interval, Pow(s.multiplier, j));
    if Limit(s).None? then free
    else if s.multiplier > 1.0 then (if free < Limit(s).value then free else Limit(s).value)
    else (if free > Limit(s).value then free else Limit(s).value)
  }

  /** The delay of the n-th fire, one step after another. */
  function FirePoint(s: Interval, n: nat): real {
    if n == 0 then 0.0 else FirePoint(s, n - 1) + Step(s, n - 1)
  }

  /** The first fire at or after `runtime`. */
  ghost predicate FirstFrom(s: Interval, runtime: real, n: nat) {
    && n >= 1 && FirePoint(s, n) >= runtime
    && forall k: nat :: 1 <= k && FirePoint(s, k) >= runtime ==> FirePoint(s, n) <= FirePoint(s, k)
  }

  // ---------------------------------------------------------------- powers

  lemma {:induction false} PowPositive(m: real, n: nat)
    requires m > 0.0
    ensures Pow(m, n) > 0.0
  {
    hide Times;
    if n > 0 {
      PowPositive(m, n - 1);
      Signs(m, Pow(m, n - 1));
    }
  }

  /** Bernoulli's inequality, which makes a growing power pass any bound. */
  lemma {:induction false} Bernoulli(m: real, n: nat)
    requires m >= 1.0
    ensures Pow(m, n) >= 1.0 + Times(n as real, m - 1.0)
  {
    if n == 0 {
      assert Times(0.0, m - 1.0) == 0.0;
    } else {
      hide Times;
      Bernoulli(m, n - 1);
      BernoulliStep(m, Pow(m, n - 1), n);
    }
  }

  lemma {:induction false} PowInverse(m: real, n: nat)
    requires m > 0.0
    ensures Times(Pow(m, n), Pow(Over(1.0, m), n)) == 1.0
  {
    if n > 0 {
      hide Times;
      hide Over;
      PowInverse(m, n - 1);
      InverseStep(m, Pow(m, n - 1), Pow(Over(1.0, m), n - 1));
    }
  }

  /** `ceil(log x / log m)` asks for the least power that has crossed `x`, upward when powers grow
      and downward when they shrink. */
  predicate Crossed(m: real, n: nat, x: real) {
    if m > 1.0 then Pow(m, n) >= x else Pow(m, n) <= x
  }

  ghost predicate LogDefined(m: real, x: real) {
    (m > 1.0 && x >= 1.0) || (0.0 < m < 1.0 && 0.0 < x <= 1.0)
  }

  lemma GrowingCrosses(m: real, x: real) returns (n: nat)
    requires m > 1.0
    ensures Pow(m, n) >= x
  {
    hide Times;
    hide Over;
    var steps := Over(x - 1.0, m - 1.0);
    n := if steps <= 0.0 then 0 else steps.Floor + 1;
    assert n as real >= steps;
    Bernoulli(m, n);
    Quotient(x - 1.0, m - 1.0);
    Scaling(m - 1.0, steps, n as real);
  }

  lemma PowersCross(m: real, x: real) returns (n: nat)
    requires LogDefined(m, x)
    ensures Crossed(m, n, x)
  {
    hide Times;
    hide Over;
    if m > 1.0 {
      n := GrowingCrosses(m, x);
    } else {
      Ratio(1.0, m);
      assert Over(1.0, m) > 1.0 by {
        Quotient(1.0, m);
        Identities(m);
        Scaling(m, 1.0, Over(1.0, m));
      }
      n := GrowingCrosses(Over(1.0, m), Over(1.0, x));
      PowInverse(m, n);
      PowPositive(m, n);
      InversePasses(Pow(m, n), Pow(Over(1.0, m), n), x);
    }
  }

  lemma {:induction false} LeastCrossing(m: real, x: real, n: nat) returns (least: nat)
    requires Crossed(m, n, x)
    ensures Crossed(m, least, x) && forall k: nat :: k < least ==> !Crossed(m, k, x)
    decreases n
  {
    if k: nat :| k < n && Crossed(m, k, x) {
      least := LeastCrossing(m, x, k);
    } else {
      least := n;
    }
  }

  lemma CrossingExists(m: real, x: real)
    requires LogDefined(m, x)
    ensures exists n: nat :: Crossed(m, n, x) && forall k: nat :: k < n ==> !Crossed(m, k, x)
  {
    var n := PowersCross(m, x);
    var least := LeastCrossing(m, x, n);
  }

  /** `math.ceil(math.log(x) / math.log(m))`. */
  ghost function CeilLog(m: real, x: real): (n: nat)
    requires LogDefined(m, x)
    ensures Crossed(m, n, x) && forall k: nat :: k < n ==> !Crossed(m, k, x)
  {
    CrossingExists(m, x);
    var n: nat :| Crossed(m, n, x) && forall k: nat :: k < n ==> !Crossed(m, k, x);
    n
  }

  lemma {:induction false} CrossedStays(m: real, x: real, n: nat, k: nat)
    requires m > 0.0 && Crossed(m, n, x) && n <= k
    ensures Crossed(m, k, x)
    decreases k - n
  {
    hide Times;
    if n < k {
      var p := Pow(m, k - 1);
      CrossedStays(m, x, n, k - 1);
      PowPositive(m, k - 1);
      Identities(p);
      Scaling(p, 1.0, m);
      assert Pow(m, k) == Times(m, p);
    }
  }

  // ---------------------------------------------------------------- the closed form

  function Runtime(interval: real, m: real, n: nat): real {
    if m == 1.0 then Times(interval, n as real) else Over(Times(interval, Pow(m, n) - 1.0), m - 1.0)
  }

  function Ceil(x: real): int {
    -((-x).Floor)
  }

  /** What the closed form without a limit takes the logarithm of. */
  function LogArg(s: Interval, runtime: real): real
    requires Valid(s)
  {
    Over(Times(runtime, s.multiplier - 1.0), s.interval) + 1.0
  }

  /** The iterations and delay of the next fire, `None` when the steps run out first. */
  ghost function NextFire(s: Interval, runtime: real): Option<(nat, real)>
    requires Valid(s)
    decreases Limit(s).Some?
  {
    var m := s.multiplier;
    if runtime <= s.interval then Some((1, s.interval))
    else if m == 1.0 then
      CeilIs(runtime, s.interval);
      var n: nat := Ceil(Over(runtime, s.interval));
      Some((n, Times(s.interval, n as real)))
    else if Limit(s).None? then
      if LogArg(s, runtime) <= 0.0 then None
      else
        LogArgument(s, runtime);
        var n := CeilLog(m, LogArg(s, runtime));
        Some((n, Runtime(s.interval, m, n)))
    else
      var limit := Limit(s).value;
      LimitArgument(s);
      var before := CeilLog(m, Over(limit, s.interval));
      var reached := Runtime(s.interval, m, before);
      if runtime < reached then NextFire(Interval(s.interval, m, None, None), runtime)
      else
        match NextFire(Interval(limit, 1.0, None, None), runtime - reached)
        case None => None
        case Some((n, delay)) => Some((before + n, reached + delay))
  }

  lemma CeilIs(runtime: real, interval: real)
    requires interval > 0.0 && runtime > interval
    ensures var n := Ceil(Over(runtime, interval));
            n >= 2 && Times(interval, (n - 1) as real) < runtime <= Times(interval, n as real)
  {
    hide Times;
    hide Over;
    var q, n := Over(runtime, interval), Ceil(Over(runtime, interval));
    assert (n - 1) as real < q <= n as real;
    Quotient(runtime, interval);
    Scaling(interval, (n - 1) as real, q);
    Scaling(interval, n as real, q);
    Identities(interval);
    Scaling(interval, 1.0, q);
  }

  lemma LogArgument(s: Interval, runtime: real)
    requires Valid(s) && s.multiplier != 1.0 && runtime > s.interval && LogArg(s, runtime) > 0.0
    ensures LogDefined(s.multiplier, LogArg(s, runtime))
  {
    hide Times;
    hide Over;
    QuotientSign(runtime, s.multiplier - 1.0, s.interval);
  }

  lemma LimitArgument(s: Interval)
    requires Valid(s) && Limit(s).Some?
    ensures LogDefined(s.multiplier, Over(Limit(s).value, s.interval))
  {
    hide Over;
    Ratio(Limit(s).value, s.interval);
  }

  // ---------------------------------------------------------------- closed form against definition

  function Free(s: Interval): Interval {
    Interval(s.interval, s.multiplier, None, None)
  }

  lemma {:induction false} PowOfOne(n: nat)
    ensures Pow(1.0, n) == 1.0
  {
    if n > 0 {
      PowOfOne(n - 1);
    }
  }

  /** The closed form of the geometric series is its sum. */
  lemma {:induction false} GeometricSum(s: Interval, n: nat)
    requires Valid(s) && Limit(s).None?
    ensures FirePoint(s, n) == Runtime(s.interval, s.multiplier, n)
  {
    var v, m := s.interval, s.multiplier;
    if n == 0 {
      Identities(v);
      assert m != 1.0 ==> Over(Times(v, 0.0), m - 1.0) == 0.0;
    } else {
      hide Times;
      hide Over;
      GeometricSum(s, n - 1);
      if m == 1.0 {
        PowOfOne(n - 1);
        Identities(v);
        NextMultiple(v, n);
      } else {
        Reals.SeriesStep(v, m, Pow(m, n - 1));
      }
    }
  }

  /** Where the closed form looks for a power, the fire point reaches the runtime. */
  lemma CrossesWhenReached(s: Interval, runtime: real, k: nat)
    requires Valid(s) && s.multiplier != 1.0 && Limit(s).None?
    ensures FirePoint(s, k) >= runtime <==> Crossed(s.multiplier, k, LogArg(s, runtime))
  {
    hide Times;
    hide Over;
    GeometricSum(s, k);
    Crossing(s.interval, s.multiplier, Pow(s.multiplier, k), runtime);
  }

  lemma StepPositive(s: Interval, j: nat)
    requires Valid(s)
    ensures Step(s, j) > 0.0
  {
    hide Times;
    PowPositive(s.multiplier, j);
    Signs(s.interval, Pow(s.multiplier, j));
  }

  lemma {:induction false} FirePointsIncrease(s: Interval, a: nat, b: nat)
    requires Valid(s) && a <= b
    ensures FirePoint(s, a) <= FirePoint(s, b)
    ensures a < b ==> FirePoint(s, a) < FirePoint(s, b)
    decreases b - a
  {
    hide Step;
    if a < b {
      FirePointsIncrease(s, a, b - 1);
      StepPositive(s, b - 1);
    }
  }

  lemma FirstStep(s: Interval)
    requires Valid(s)
    ensures FirePoint(s, 1) == s.interval
  {
    hide Times;
    assert Pow(s.multiplier, 0) == 1.0;
    Identities(s.interval);
    assert FirePoint(s, 1) == FirePoint(s, 0) + Step(s, 0);
  }

  /** Reaching the runtime where the fire before does not makes a fire the first from it. */
  lemma ReachedFirst(s: Interval, runtime: real, n: nat)
    requires Valid(s) && n >= 1 && FirePoint(s, n) >= runtime && (n > 1 ==> FirePoint(s, n - 1) < runtime)
    ensures FirstFrom(s, runtime, n)
  {
    hide Step;
    forall k: nat | 1 <= k && FirePoint(s, k) >= runtime ensures FirePoint(s, n) <= FirePoint(s, k) {
      if k < n {
        FirePointsIncrease(s, k, n - 1);
      } else {
        FirePointsIncrease(s, n, k);
      }
    }
  }

  // ---------------------------------------------------------------- around the limit

  // ---------------------------------------------------------------- one step after another

  /** An interval held between the schedule's bounds. */
  function Held(s: Interval, interval: real): real {
    var least := if s.min.Some? && interval < s.min.value then s.min.value else interval;
    if s.max.Some? && least > s.max.value then s.max.value else least
  }

  lemma FreeStepFollows(s: Interval, j: nat)
    ensures var next := Times(s.interval, Pow(s.multiplier, j + 1));
            next == Times(s.multiplier, Times(s.interval, Pow(s.multiplier, j)))
  {
    var p := Pow(s.multiplier, j);
    assert s.interval * (s.multiplier * p) == s.multiplier * (s.interval * p);
  }

  /** Unlimited steps never shrink when the multiplier is at least one, and never grow when it is at most one. */
  lemma {:induction false} FreeStepBounds(s: Interval, j: nat)
    requires Valid(s)
    ensures var free := Times(s.interval, Pow(s.multiplier, j));
            && (s.multiplier >= 1.0 ==> free >= s.interval) && (s.multiplier <= 1.0 ==> free <= s.interval)
  {
    Identities(s.interval);
    if j > 0 {
      FreeStepBounds(s, j - 1);
      FreeStepFollows(s, j - 1);
      var before := Times(s.interval, Pow(s.multiplier, j - 1));
      PowPositive(s.multiplier, j - 1);
      Signs(s.interval, Pow(s.multiplier, j - 1));
      Identities(before);
      Scaling(before, s.multiplier, 1.0);
      Scaling(before, 1.0, s.multiplier);
      hide Times;
    }
  }

  /** The steps are those of the configured backoff: the first is the interval, and each is the one
      before times the multiplier, held between both bounds. */
  lemma StepsFollow(s: Interval, j: nat)
    requires Valid(s)
    ensures Step(s, 0) == s.interval
    ensures Step(s, j + 1) == Held(s, Times(s.multiplier, Step(s, j)))
  {
    Identities(s.interval);
    FreeStepFollows(s, j);
    FreeStepBounds(s, j);
    FreeStepBounds(s, j + 1);
    hide Pow;
    var free := Times(s.interval, Pow(s.multiplier, j));
    if Limit(s).Some? {
      var limit := Limit(s).value;
      Scaling(s.multiplier, free, limit);
      Scaling(s.multiplier, limit, free);
      Scaling(limit, s.multiplier, 1.0);
      Scaling(limit, 1.0, s.multiplier);
      Identities(limit);
    }
    hide Times;
  }

  /** How many steps run free before the limit takes hold. */
  ghost function FreeSteps(s: Interval): nat
    requires Valid(s) && Limit(s).Some?
  {
    LimitArgument(s);
    CeilLog(s.multiplier, Over(Limit(s).value, s.interval))
  }

  lemma StepAroundLimit(s: Interval, j: nat)
    requires Valid(s) && Limit(s).Some?
    ensures j < FreeSteps(s) ==> Step(s, j) == Step(Free(s), j)
    ensures j >= FreeSteps(s) ==> Step(s, j) == Limit(s).value
  {
    hide Times;
    hide Over;
    LimitArgument(s);
    var x := Over(Limit(s).value, s.interval);
    Quotient(Limit(s).value, s.interval);
    if j >= FreeSteps(s) {
      CrossedStays(s.multiplier, x, FreeSteps(s), j);
    } else {
      assert !Crossed(s.multiplier, j, x);
    }
    Scaling(s.interval, Pow(s.multiplier, j), x);
    Scaling(s.interval, x, Pow(s.multiplier, j));
  }

  lemma {:induction false} FreeBeforeLimit(s: Interval, n: nat)
    requires Valid(s) && Limit(s).Some? && n <= FreeSteps(s)
    ensures FirePoint(s, n) == FirePoint(Free(s), n) == Runtime(s.interval, s.multiplier, n)
  {
    hide Step;
    hide FreeSteps;
    hide Runtime;
    GeometricSum(Free(s), n);
    if n > 0 {
      FreeBeforeLimit(s, n - 1);
      StepAroundLimit(s, n - 1);
    }
  }

  lemma {:induction false} EvenAfterLimit(s: Interval, i: nat)
    requires Valid(s) && Limit(s).Some?
    ensures FirePoint(s, FreeSteps(s) + i) == FirePoint(s, FreeSteps(s)) + Times(Limit(s).value, i as real)
  {
    hide Step;
    hide FreeSteps;
    hide Times;
    if i == 0 {
      Identities(Limit(s).value);
    } else {
      EvenAfterLimit(s, i - 1);
      StepAroundLimit(s, FreeSteps(s) + i - 1);
      NextMultiple(Limit(s).value, i);
      assert FirePoint(s, FreeSteps(s) + i) == FirePoint(s, FreeSteps(s) + (i - 1)) + Step(s, FreeSteps(s) + (i - 1));
    }
  }

  // ---------------------------------------------------------------- the theorems

  /** The runtime at which a limit takes hold, where the closed form skips the fire it is. */
  ghost predicate AtLimit(s: Interval, runtime: real)
    requires Valid(s)
  {
    runtime > s.interval && Limit(s).Some? && runtime == FirePoint(s, FreeSteps(s))
  }

  ghost predicate Exhausts(s: Interval, runtime: real)
    requires Valid(s)
  {
    s.multiplier < 1.0 && s.min.None? && runtime >= Over(s.interval, 1.0 - s.multiplier)
  }

  /** A fire point at or after the runtime, the one before it not after. */
  ghost predicate Meets(s: Interval, runtime: real, found: (nat, real)) {
    && found.0 >= 1 && found.1 == FirePoint(s, found.0) && runtime <= found.1
    && (found.0 > 1 ==> FirePoint(s, found.0 - 1) <= runtime)
  }

  ghost predicate MeetsFirst(s: Interval, runtime: real, found: (nat, real)) {
    Meets(s, runtime, found) && (found.0 > 1 ==> FirePoint(s, found.0 - 1) < runtime)
  }

  /** A schedule of even steps. */
  lemma EvenFire(s: Interval, runtime: real)
    requires Valid(s) && s.multiplier == 1.0
    ensures NextFire(s, runtime).Some? && MeetsFirst(s, runtime, NextFire(s, runtime).value)
    ensures NextFire(s, runtime).value.1 == Times(s.interval, NextFire(s, runtime).value.0 as real)
  {
    hide Times;
    hide Over;
    hide Step;
    FirstStep(s);
    if runtime > s.interval {
      CeilIs(runtime, s.interval);
      var n: nat := Ceil(Over(runtime, s.interval));
      GeometricSum(s, n);
      GeometricSum(s, n - 1);
    } else {
      Identities(s.interval);
    }
  }

  /** A geometric schedule without a limit. */
  lemma FreeFire(s: Interval, runtime: real)
    requires Valid(s) && s.multiplier != 1.0 && Limit(s).None?
    ensures NextFire(s, runtime).None? <==> runtime > s.interval && Exhausts(s, runtime)
    ensures NextFire(s, runtime).Some? ==> MeetsFirst(s, runtime, NextFire(s, runtime).value)
  {
    FirstStep(s);
    if runtime > s.interval {
      ExhaustedArgument(s, runtime);
      hide LogArg;
      hide Step;
      hide Over;
      if LogArg(s, runtime) > 0.0 {
        LogArgument(s, runtime);
        var n := CeilLog(s.multiplier, LogArg(s, runtime));
        GeometricSum(s, n);
        CrossesWhenReached(s, runtime, n);
        assert n > 0;
        CrossesWhenReached(s, runtime, n - 1);
      }
    }
  }

  lemma ExhaustedArgument(s: Interval, runtime: real)
    requires Valid(s) && s.multiplier != 1.0 && runtime > s.interval
    ensures LogArg(s, runtime) <= 0.0 <==> s.multiplier < 1.0 && runtime >= Over(s.interval, 1.0 - s.multiplier)
  {
    hide Times;
    hide Over;
    if s.multiplier < 1.0 {
      Exhaustion(s.interval, s.multiplier, runtime);
    } else {
      QuotientSign(runtime, s.multiplier - 1.0, s.interval);
    }
  }

  /** Shrinking steps never add up to what an endless row of them would. */
  lemma NeverExhausted(s: Interval, n: nat)
    requires Valid(s) && s.multiplier < 1.0 && Limit(s).None?
    ensures FirePoint(s, n) < Over(s.interval, 1.0 - s.multiplier)
  {
    hide Times;
    hide Over;
    GeometricSum(s, n);
    PowPositive(s.multiplier, n);
    PartialSum(s.interval, s.multiplier, Pow(s.multiplier, n));
  }

  lemma BeforeLimitFire(s: Interval, runtime: real)
    requires Valid(s) && Limit(s).Some? && s.interval < runtime < FirePoint(s, FreeSteps(s))
    ensures NextFire(Free(s), runtime).Some? && MeetsFirst(s, runtime, NextFire(Free(s), runtime).value)
  {
    hide Step;
    hide Runtime;
    hide FreeSteps;
    hide NextFire;
    hide Over;
    var free, before := Free(s), FreeSteps(s);
    FreeBeforeLimit(s, before);
    FreeFire(free, runtime);
    if s.multiplier < 1.0 {
      NeverExhausted(free, before);
    }
    var n := NextFire(free, runtime).value.0;
    if n > before {
      FirePointsIncrease(free, before, n - 1);
    }
    FreeBeforeLimit(s, n);
    FreeBeforeLimit(s, n - 1);
  }

  lemma AfterLimitFire(s: Interval, runtime: real)
    requires Valid(s) && Limit(s).Some? && s.interval < runtime && FirePoint(s, FreeSteps(s)) <= runtime
    ensures var before, even := FreeSteps(s), Interval(Limit(s).value, 1.0, None, None);
            var found := NextFire(even, runtime - FirePoint(s, before));
            && found.Some?
            && var result := (before + found.value.0, FirePoint(s, before) + found.value.1);
            && Meets(s, runtime, result)
            && (AtLimit(s, runtime) <==> result.0 > 1 && FirePoint(s, result.0 - 1) == runtime)
  {
    hide Step;
    hide FreeSteps;
    hide NextFire;
    hide Times;
    FirstStep(s);
    var before, even := FreeSteps(s), Interval(Limit(s).value, 1.0, None, None);
    var left := runtime - FirePoint(s, before);
    EvenFire(even, left);
    var n := NextFire(even, left).value.0;
    EvenAfterLimit(s, n);
    EvenAfterLimit(s, n - 1);
    GeometricSum(even, n - 1);
    FirePointsIncrease(even, 0, n - 1);
    Identities(Limit(s).value);
    assert before + n - 1 == before + (n - 1);
  }

  lemma LimitedFire(s: Interval, runtime: real)
    requires Valid(s) && Limit(s).Some?
    ensures NextFire(s, runtime).Some? && Meets(s, runtime, NextFire(s, runtime).value)
    ensures var n := NextFire(s, runtime).value.0;
            AtLimit(s, runtime) <==> n > 1 && FirePoint(s, n - 1) == runtime
  {
    FirstStep(s);
    if runtime > s.interval {
      hide Step;
      var before := FreeSteps(s);
      FreeBeforeLimit(s, before);
      if runtime < FirePoint(s, before) {
        BeforeLimitFire(s, runtime);
      } else {
        AfterLimitFire(s, runtime);
      }
    }
  }

  /** The closed form against the step-by-step schedule, for every runtime. It finds nothing exactly
      when shrinking steps without a floor run out, and then no fire point reaches the runtime.
      Otherwise it gives a fire point at or after the runtime with none strictly between. */
  lemma NextFireMeetsSchedule(s: Interval, runtime: real)
    requires Valid(s)
    ensures NextFire(s, runtime).None? <==> runtime > s.interval && Exhausts(s, runtime)
    ensures NextFire(s, runtime).None? ==> forall n: nat :: FirePoint(s, n) < runtime
    ensures NextFire(s, runtime).Some? ==>
              var (n, delay) := NextFire(s, runtime).value;
              && n >= 1 && delay == FirePoint(s, n) && runtime <= delay
              && forall k: nat :: 1 <= k ==> !(runtime < FirePoint(s, k) < delay)
  {
    hide NextFire;
    hide Step;
    hide Over;
    var fire := NextFire(s, runtime);
    if s.multiplier == 1.0 {
      EvenFire(s, runtime);
    } else if Limit(s).None? {
      FreeFire(s, runtime);
    } else {
      LimitedFire(s, runtime);
    }
    if fire.None? {
      forall n: nat ensures FirePoint(s, n) < runtime {
        NeverExhausted(s, n);
      }
    } else {
      var n := fire.value.0;
      forall k: nat | 1 <= k ensures !(runtime < FirePoint(s, k) < fire.value.1) {
        if k >= n { FirePointsIncrease(s, n, k); } else { FirePointsIncrease(s, k, n - 1); }
      }
    }
  }

  /** The fire found is the first at or after the runtime, except at exactly one runtime: the one
      at which a limit takes hold, whose own fire it skips for the next. */
  lemma FirstExceptAtLimit(s: Interval, runtime: real)
    requires Valid(s) && NextFire(s, runtime).Some?
    ensures FirstFrom(s, runtime, NextFire(s, runtime).value.0) <==> !AtLimit(s, runtime)
    ensures AtLimit(s, runtime) ==> NextFire(s, runtime).value.1 == runtime + Limit(s).value
  {
    hide NextFire;
    hide Step;
    hide FreeSteps;
    var n := NextFire(s, runtime).value.0;
    if s.multiplier == 1.0 {
      EvenFire(s, runtime);
      ReachedFirst(s, runtime, n);
    } else if Limit(s).None? {
      FreeFire(s, runtime);
      ReachedFirst(s, runtime, n);
    } else {
      LimitedFire(s, runtime);
      if AtLimit(s, runtime) {
        FirePointsIncrease(s, n - 1, n);
        SkipsTheLimit(s, runtime, n);
        assert !FirstFrom(s, runtime, n);
      } else {
        ReachedFirst(s, runtime, n);
      }
    }
  }

  lemma SkipsTheLimit(s: Interval, runtime: real, n: nat)
    requires Valid(s) && AtLimit(s, runtime) && n > 1 && FirePoint(s, n - 1) == runtime
    ensures FirePoint(s, n) == runtime + Limit(s).value
  {
    hide Step;
    hide FreeSteps;
    var before := FreeSteps(s);
    if n - 1 < before {
      FirePointsIncrease(s, n - 1, before);
    } else if before < n - 1 {
      FirePointsIncrease(s, before, n - 1);
    }
    StepAroundLimit(s, n - 1);
  }

  lemma SmallPowers(m: real)
    ensures Pow(m, 0) == 1.0 && Pow(m, 1) == m && Pow(m, 2) == Times(m, m)
  {
    Identities(m);
    assert Pow(m, 1) == Times(m, Pow(m, 0));
    assert Pow(m, 2) == Times(m, Pow(m, 1));
  }

  lemma DoublingNumbers(s: Interval)
    requires s == Interval(1.0, 2.0, None, Some(4.0))
    ensures FreeSteps(s) == 2 && FirePoint(s, 2) == 3.0
  {
    SmallPowers(2.0);
    assert Times(2.0, 2.0) == 4.0 && Times(1.0, 1.0) == 1.0 && Times(1.0, 2.0) == 2.0;
    Identities(4.0);
    LimitArgument(s);
    hide Times;
    hide Over;
    hide Pow;
    assert Crossed(2.0, 2, 4.0) && !Crossed(2.0, 1, 4.0) && !Crossed(2.0, 0, 4.0);
    assert Step(s, 0) == 1.0 && Step(s, 1) == 2.0;
    hide Step;
    assert FirePoint(s, 1) == FirePoint(s, 0) + Step(s, 0);
  }

  /** Steps that double up to four: asked at the second fire, the closed form gives the third. */
  lemma SkippedFire()
    ensures var s := Interval(1.0, 2.0, None, Some(4.0));
            && Valid(s) && FirePoint(s, 2) == 3.0
            && NextFire(s, 3.0).Some? && NextFire(s, 3.0).value.1 == 7.0
  {
    hide NextFire;
    hide FreeSteps;
    hide FirePoint;
    var s := Interval(1.0, 2.0, None, Some(4.0));
    DoublingNumbers(s);
    LimitedFire(s, 3.0);
    FirstExceptAtLimit(s, 3.0);
  }

  // ---------------------------------------------------------------- the trigger

  /** When the trigger next fires: at its start while that is ahead, then where the schedule says,
      and never past its end. */
  ghost function NextFireTime(s: Interval, start: real, end: Option<real>, now: real): Option<real>
    requires Valid(s)
  {
    if end.Some? && now > end.value then None
    else if now < start then (if end.Some? && start > end.value then None else Some(start))
    else
      match NextFire(s, now - start)
      case None => None
      case Some((_, delay)) => if end.Some? && start + delay > end.value then None else Some(start + delay)
  }

  /** A time the schedule fires at: its start, or a fire point after it, up to its end. */
  ghost predicate Fires(s: Interval, start: real, end: Option<real>, time: real) {
    (end.Some? ==> time <= end.value) && (time == start || exists k: nat :: k >= 1 && time == start + FirePoint(s, k))
  }

  ghost predicate NextOf(s: Interval, start: real, end: Option<real>, now: real, found: Option<real>) {
    match found
    case Some(time) =>
      time >= now && Fires(s, start, end, time) && forall t :: now <= t && Fires(s, start, end, t) ==> time <= t
    case None => forall t :: now <= t ==> !Fires(s, start, end, t)
  }

  /** The trigger misses no fire and invents none, but at two moments that are fires themselves and
      not past the end: its start, and the fire at which a limit takes hold. */
  lemma TriggerIsExact(s: Interval, start: real, end: Option<real>, now: real)
    requires Valid(s)
    ensures NextOf(s, start, end, now, NextFireTime(s, start, end, now)) <==>
            !(Fires(s, start, end, now) && (now == start || AtLimit(s, now - start)))
  {
    hide NextFire;
    hide Step;
    hide FreeSteps;
    hide Limit;
    var found := NextFireTime(s, start, end, now);
    if now < start {
      forall t | Fires(s, start, end, t) ensures start <= t {
        if k: nat :| k >= 1 && t == start + FirePoint(s, k) {
          FirePointsIncrease(s, 0, k);
        }
      }
      AtLimitIsLate(s, now - start);
    } else if end.None? || now <= end.value {
      TriggerAfterStart(s, start, end, now);
    }
  }

  lemma AtLimitIsLate(s: Interval, runtime: real)
    requires Valid(s) && runtime <= 0.0
    ensures !AtLimit(s, runtime)
  {
  }

  lemma TriggerAfterStart(s: Interval, start: real, end: Option<real>, now: real)
    requires Valid(s) && start <= now && (end.Some? ==> now <= end.value)
    ensures NextOf(s, start, end, now, NextFireTime(s, start, end, now)) <==>
            !(Fires(s, start, end, now) && (now == start || AtLimit(s, now - start)))
  {
    hide NextFire;
    hide Step;
    hide FreeSteps;
    var runtime, fire := now - start, NextFire(s, now - start);
    NextFireMeetsSchedule(s, runtime);
    if fire.Some? {
      FirstExceptAtLimit(s, runtime);
      var (n, delay) := fire.value;
      FirePointsIncrease(s, 0, n);
      if now == start {
        assert Fires(s, start, end, now);
      } else if AtLimit(s, runtime) {
        SkippedIsFire(s, start, end, now);
      } else {
        forall t | now <= t && Fires(s, start, end, t) ensures start + delay <= t {
          var k: nat :| k >= 1 && t == start + FirePoint(s, k);
        }
        if end.None? || start + delay <= end.value {
          assert Fires(s, start, end, start + delay);
        }
      }
    } else {
      forall t | now <= t ensures !Fires(s, start, end, t) {
      }
    }
  }

  lemma SkippedIsFire(s: Interval, start: real, end: Option<real>, now: real)
    requires Valid(s) && AtLimit(s, now - start) && (end.Some? ==> now <= end.value)
    ensures Fires(s, start, end, now)
  {
    hide Step;
    hide FreeSteps;
    var k := FreeSteps(s);
    assert now == start + FirePoint(s, k);
    assert k >= 1;
  }
}
