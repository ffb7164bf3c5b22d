/**
 Exponential backoff: the stateless policy, the laws its delay sequence obeys
 for every jitter, and the controller that steps through the sequence.

 Durations are real seconds.  A configured float is a real or not finite; the
 random jitter of one step is a number `u` between -1 and 1.
 */
module Backoff {
  datatype Float = Finite(value: real) | NotFinite

  type Duration = d: real | d >= 0.0

  type Jitter = u: real | -1.0 <= u <= 1.0

  const U32_MAX: nat := 0xFFFF_FFFF

  datatype RestartPolicy = RestartPolicy(
    initialDelay: Duration,
    maxDelay: Duration,
    multiplier: Float,
    jitterFactor: Float,
    resetAfter: Duration,
    providerInitTimeout: Duration)
  {
    /** The multiplier in force: positive and finite. */
    function Factor(): (m: real)
      ensures m > 0.0
    {
      if multiplier.Finite? && multiplier.value > 0.0 then multiplier.value else 1.0
    }

    /** The jitter factor in force: finite and between 0 and 1. */
    function Spread(): (j: real)
      ensures 0.0 <= j <= 1.0
    {
      if jitterFactor.NotFinite? then 0.0
      else if jitterFactor.value < 0.0 then 0.0
      else if jitterFactor.value > 1.0 then 1.0
      else jitterFactor.value
    }

    /** The factor under the most unfavourable jitter. */
    function Growth(): real {
      Factor() * (1.0 - Spread())
    }
  }

  function Min(a: real, b: real): real { if a <= b then a else b }

  function Jittered(base: real, spread: real, u: Jitter): real {
    if spread > 0.0 && base > 0.0 then base + u * (base * spread) else base
  }

  function Settled(next: real, max: Duration): (d: Duration)
    ensures d <= max && d >= Min(next, max)
  {
    if next >= max then max else if next <= 0.0 then 0.0 else next
  }

  function NextDelay(p: RestartPolicy, current: Duration, u: Jitter): (next: Duration)
    ensures next <= p.maxDelay
  {
    if p.maxDelay <= 0.0 then 0.0
    else
      var base := current * p.Factor();
      if base >= p.maxDelay then p.maxDelay
      else Settled(Jittered(base, p.Spread(), u), p.maxDelay)
  }

  /** The delay after one failure per element of `us`. */
  function DelayAfter(p: RestartPolicy, us: seq<Jitter>): Duration {
    if us == [] then p.initialDelay
    else NextDelay(p, DelayAfter(p, us[..|us| - 1]), us[|us| - 1])
  }

  // ----- Real arithmetic

  /** x times the n-th power of m */
  function Scaled(x: real, m: real, n: nat): real {
    if n == 0 then x else Scaled(x, m, n - 1) * m
  }

  lemma MulMono(a: real, b: real, c: real)
    requires a <= b && c >= 0.0
    ensures a * c <= b * c
  {
  }

  lemma MulNonneg(a: real, b: real)
    requires a >= 0.0 && b >= 0.0
    ensures a * b >= 0.0
  {
  }

  // The products below are named by a variable so that a caller's product is matched as it stands.

  lemma ScaleDown(x: real, q: real, y: real)
    requires y == x * q && x >= 0.0 && q <= 1.0
    ensures y <= x
  {
    MulNonneg(x, 1.0 - q);
    assert x * (1.0 - q) == x - y;
  }

  lemma ScaleUp(x: real, g: real, y: real)
    requires y == x * g && x >= 0.0 && g >= 1.0
    ensures y >= x
  {
    MulNonneg(x, g - 1.0);
    assert x * (g - 1.0) == y - x;
  }

  lemma MulStrict(x: real, q: real, y: real)
    requires y == x * q && x > 0.0 && q < 1.0
    ensures y < x
  {
    assert x * (1.0 - q) > 0.0;
    assert x * (1.0 - q) == x - y;
  }

  lemma Regroup(a: real, b: real, c: real, bc: real)
    requires bc == b * c
    ensures (a * b) * c == a * bc
  {
  }

  lemma MulCong(a: real, b: real, c: real)
    requires a == b
    ensures a * c == b * c
  {
  }

  lemma ScaledNext(x: real, m: real, n: nat, y: real)
    requires y == Scaled(x, m, n)
    ensures Scaled(x, m, n + 1) == y * m
  {
  }

  lemma {:induction false} ScaledByOne(x: real, n: nat)
    ensures Scaled(x, 1.0, n) == x
  {
    if n == 0 {
    } else {
      ScaledByOne(x, n - 1);
      ScaledNext(x, 1.0, n - 1, x);
    }
  }

  lemma {:induction false} ScaledShrinks(x: real, m: real, n: nat)
    requires x >= 0.0 && 0.0 <= m <= 1.0
    ensures 0.0 <= Scaled(x, m, n) <= x
  {
    if n == 0 {
    } else {
      var y := Scaled(x, m, n - 1);
      ScaledShrinks(x, m, n - 1);
      ScaledNext(x, m, n - 1, y);
      var next := y * m;
      MulNonneg(y, m);
      ScaleDown(y, m, next);
    }
  }

  lemma MinScales(a: real, b: real, c: real)
    requires c >= 0.0
    ensures Min(a, b) * c == Min(a * c, b * c)
  {
    if a <= b {
      MulMono(a, b, c);
      MulCong(Min(a, b), a, c);
    } else {
      MulMono(b, a, c);
      MulCong(Min(a, b), b, c);
    }
  }

  // ----- Laws of one step

  /** Without jitter a step multiplies and caps. */
  lemma PlainStep(p: RestartPolicy, current: Duration, u: Jitter, factor: real)
    requires p.Spread() == 0.0 && p.maxDelay > 0.0 && factor == p.Factor()
    ensures NextDelay(p, current, u) == Min(current * factor, p.maxDelay)
  {
    MulNonneg(current, p.Factor());
  }

  /** The jittered value lies above the base shrunk by the full spread. */
  lemma JitterFloor(base: real, spread: real, u: Jitter)
    requires base >= 0.0 && spread >= 0.0
    ensures base * (1.0 - spread) <= Jittered(base, spread, u)
  {
    var range := base * spread;
    MulNonneg(base, spread);
    assert u * range >= -range by {
      MulNonneg(u + 1.0, range);
    }
    assert base * (1.0 - spread) == base - range;
  }

  /** The least next delay over all jitters. */
  lemma StepLowerBound(p: RestartPolicy, current: Duration, u: Jitter, growth: real)
    requires p.maxDelay > 0.0 && growth == p.Growth()
    ensures NextDelay(p, current, u) >= Min(current * growth, p.maxDelay)
  {
    var base, slack := current * p.Factor(), 1.0 - p.Spread();
    MulNonneg(current, p.Factor());
    Regroup(current, p.Factor(), slack, growth);
    JitterFloor(base, p.Spread(), u);
    assert base * slack <= Jittered(base, p.Spread(), u);
  }

  /** The jittered value lies below the base grown by the full spread. */
  lemma JitterCeiling(base: real, spread: real, u: Jitter, high: real)
    requires base >= 0.0 && spread >= 0.0 && high == base * (1.0 + spread)
    ensures Jittered(base, spread, u) <= high && base <= high
  {
    var range := base * spread;
    MulNonneg(base, spread);
    assert u * range <= range by {
      MulNonneg(1.0 - u, range);
    }
    assert high == base + range;
  }

  /** The greatest next delay over all jitters; upward jitter never adds more than the spread. */
  lemma StepUpperBound(p: RestartPolicy, current: Duration, u: Jitter, base: real, high: real)
    requires base == current * p.Factor() && high == base * (1.0 + p.Spread())
    ensures NextDelay(p, current, u) <= high
  {
    hide NextDelay, Jittered;
    MulNonneg(current, p.Factor());
    JitterCeiling(base, p.Spread(), u, high);
    StepBelow(p, current, u, base, high);
  }

  lemma StepBelow(p: RestartPolicy, current: Duration, u: Jitter, base: real, high: real)
    requires base == current * p.Factor() && 0.0 <= base <= high && Jittered(base, p.Spread(), u) <= high
    ensures NextDelay(p, current, u) <= high
  {
    var next := Jittered(base, p.Spread(), u);
    if 0.0 < p.maxDelay && base < p.maxDelay {
      assert NextDelay(p, current, u) == Settled(next, p.maxDelay);
    }
  }

  /** Full upward jitter reaches it, unless the maximum comes first. */
  lemma BestJitter(p: RestartPolicy, current: Duration, base: real, high: real)
    requires p.maxDelay > 0.0 && base == current * p.Factor() && high == base * (1.0 + p.Spread())
    ensures NextDelay(p, current, 1.0) == Min(high, p.maxDelay)
  {
    MulNonneg(current, p.Factor());
    var range := base * p.Spread();
    MulNonneg(base, p.Spread());
    assert high == base + range;
  }

  /** A multiplier that is not finite or not positive leaves the delay alone, and such a jitter factor adds nothing. */
  lemma UnusableNumbers(p: RestartPolicy)
    ensures p.multiplier.NotFinite? || p.multiplier.value <= 0.0 ==> p.Factor() == 1.0
    ensures p.multiplier.Finite? && p.multiplier.value > 0.0 ==> p.Factor() == p.multiplier.value
    ensures p.jitterFactor.NotFinite? || p.jitterFactor.value <= 0.0 ==> p.Spread() == 0.0
    ensures p.jitterFactor.Finite? && 0.0 <= p.jitterFactor.value <= 1.0 ==> p.Spread() == p.jitterFactor.value
    ensures p.jitterFactor.Finite? && p.jitterFactor.value >= 1.0 ==> p.Spread() == 1.0
  {
  }

  /** A step never shrinks a delay, whatever the jitter, exactly under the stated condition. */
  lemma StepGrowsIff(p: RestartPolicy, current: Duration)
    requires p.maxDelay > 0.0 && current <= p.maxDelay
    ensures (forall u: Jitter :: NextDelay(p, current, u) >= current) <==>
            (current == 0.0 || current * p.Factor() >= p.maxDelay || p.Growth() >= 1.0)
  {
    if p.Growth() >= 1.0 {
      forall u: Jitter ensures NextDelay(p, current, u) >= current {
        StepGrows(p, current, u);
      }
    } else if 0.0 < current && current * p.Factor() < p.maxDelay {
      WorstJitterShrinks(p, current);
      assert NextDelay(p, current, -1.0) < current;
    }
  }

  lemma StepGrows(p: RestartPolicy, current: Duration, u: Jitter)
    requires p.maxDelay > 0.0 && current <= p.maxDelay && p.Growth() >= 1.0
    ensures NextDelay(p, current, u) >= current
  {
    var growth := p.Growth();
    StepLowerBound(p, current, u, growth);
    var grown := current * growth;
    ScaleUp(current, growth, grown);
  }

  lemma WorstJitterShrinks(p: RestartPolicy, current: Duration)
    requires 0.0 < current && current * p.Factor() < p.maxDelay && p.Growth() < 1.0
    ensures NextDelay(p, current, -1.0) < current
  {
    var base, slack, growth := current * p.Factor(), 1.0 - p.Spread(), p.Growth();
    MulNonneg(current, p.Factor());
    var shrunk := current * growth;
    MulStrict(current, growth, shrunk);
    Regroup(current, p.Factor(), slack, growth);
    WorstJitter(base, p.Spread());
    assert Jittered(base, p.Spread(), -1.0) == base * slack == shrunk;
  }

  lemma WorstJitter(base: real, spread: real)
    requires base >= 0.0 && spread >= 0.0
    ensures Jittered(base, spread, -1.0) == base * (1.0 - spread)
  {
    var range := base * spread;
    assert base * (1.0 - spread) == base - range;
  }

  /** The maximal delay is absorbing exactly when the multiplier does not shrink. */
  lemma MaxAbsorbingIff(p: RestartPolicy)
    requires p.maxDelay > 0.0
    ensures (forall u: Jitter :: NextDelay(p, p.maxDelay, u) == p.maxDelay) <==> p.Factor() >= 1.0
  {
    var base := p.maxDelay * p.Factor();
    if p.Factor() >= 1.0 {
      ScaleUp(p.maxDelay, p.Factor(), base);
    } else {
      MulStrict(p.maxDelay, p.Factor(), base);
      assert Jittered(base, p.Spread(), 0.0) == base;
      assert NextDelay(p, p.maxDelay, 0.0) < p.maxDelay;
    }
  }

  // ----- Laws of the whole sequence

  /**
   Closed form without jitter, for every multiplier: a growing sequence is the
   capped power of the multiplier; a shrinking one decays from the first step.
   */
  lemma {:induction false} ClosedForm(p: RestartPolicy, us: seq<Jitter>)
    requires p.Spread() == 0.0 && p.maxDelay > 0.0 && us != []
    ensures DelayAfter(p, us) ==
            Min(Scaled(p.initialDelay, p.Factor(), |us|), Scaled(p.maxDelay, Min(1.0, p.Factor()), |us| - 1))
  {
    var m, n := p.Factor(), |us|;
    var previous := us[..n - 1];
    var d := DelayAfter(p, previous);
    PlainStep(p, d, us[n - 1], m);
    if n == 1 {
      ScaledNext(p.initialDelay, m, 0, d);
    } else {
      ClosedForm(p, previous);
      CappedPower(p.initialDelay, p.maxDelay, m, n - 1, d);
    }
  }

  /** One more failure raises both powers by one. */
  lemma CappedPower(x: real, cap: real, m: real, n: nat, d: real)
    requires cap >= 0.0 && m > 0.0 && n >= 1
    requires d == Min(Scaled(x, m, n), Scaled(cap, Min(1.0, m), n - 1))
    ensures Min(d * m, cap) == Min(Scaled(x, m, n + 1), Scaled(cap, Min(1.0, m), n))
  {
    var a, b := Scaled(x, m, n), Scaled(cap, Min(1.0, m), n - 1);
    ScaledNext(x, m, n, a);
    CapStep(cap, m, n - 1, b);
    hide Scaled;
    CapsMinimum(a, b, m, cap, d, a * m, b * m);
  }

  lemma CapsMinimum(a: real, b: real, m: real, cap: real, d: real, am: real, bm: real)
    requires m >= 0.0 && d == Min(a, b) && am == a * m && bm == b * m
    ensures Min(d * m, cap) == Min(am, Min(bm, cap))
  {
    MulCong(d, Min(a, b), m);
    MinScales(a, b, m);
  }

  /** Scaling the cap by the multiplier and capping again. */
  lemma CapStep(cap: real, m: real, k: nat, y: real)
    requires cap >= 0.0 && m > 0.0 && y == Scaled(cap, Min(1.0, m), k)
    ensures Min(y * m, cap) == Scaled(cap, Min(1.0, m), k + 1)
  {
    if m >= 1.0 {
      ScaledByOne(cap, k);
      ScaledByOne(cap, k + 1);
      var scaled := y * m;
      ScaleUp(y, m, scaled);
    } else {
      ScaledNext(cap, m, k, y);
      ScaledShrinks(cap, m, k + 1);
    }
  }

  /** Under every jitter: bounded by the maximum, and with the growth condition never decreasing. */
  lemma {:induction false} NeverDecreases(p: RestartPolicy, us: seq<Jitter>, k: nat)
    requires p.initialDelay <= p.maxDelay && p.Growth() >= 1.0 && k <= |us|
    ensures p.initialDelay <= DelayAfter(p, us[..k]) <= DelayAfter(p, us) <= p.maxDelay
    decreases |us|
  {
    if us == [] {
      assert us[..k] == us;
    } else {
      var previous := us[..|us| - 1];
      NeverDecreases(p, previous, if k < |us| then k else |us| - 1);
      assert previous[..|us| - 1] == previous;
      assert k < |us| ==> previous[..k] == us[..k];
      assert us[..|us|] == us;
      if p.maxDelay > 0.0 {
        StepGrowsIff(p, DelayAfter(p, previous));
      }
    }
  }

  // ----- The controller

  class BackoffController {
    const policy: RestartPolicy
    var currentDelay: Duration
    var attemptCount: nat
    /** The jitter of every failure since the last reset. */
    ghost var failures: seq<Jitter>

    ghost predicate Valid()
      reads this
    {
      && currentDelay == DelayAfter(policy, failures)
      && attemptCount == if |failures| <= U32_MAX then |failures| else U32_MAX
    }

    constructor (policy: RestartPolicy)
      ensures Valid() && failures == [] && this.policy == policy
    {
      this.policy := policy;
      currentDelay, attemptCount, failures := policy.initialDelay, 0, [];
    }

    method RecordSuccess()
      modifies this
      ensures Valid() && failures == [] && currentDelay == policy.initialDelay && attemptCount == 0
    {
      currentDelay, attemptCount, failures := policy.initialDelay, 0, [];
    }

    method RecordFailure(u: Jitter)
      requires Valid()
      modifies this
      ensures Valid() && failures == old(failures) + [u]
      ensures currentDelay == NextDelay(policy, old(currentDelay), u)
      ensures attemptCount == if old(attemptCount) < U32_MAX then old(attemptCount) + 1 else old(attemptCount)
    {
      attemptCount := if attemptCount < U32_MAX then attemptCount + 1 else attemptCount;
      currentDelay := NextDelay(policy, currentDelay, u);
      failures := failures + [u];
      assert failures[..|failures| - 1] == old(failures);
    }

    method MaybeReset(elapsed: Duration)
      requires Valid()
      modifies this
      ensures Valid()
      ensures failures == if elapsed >= policy.resetAfter then [] else old(failures)
    {
      if elapsed >= policy.resetAfter {
        RecordSuccess();
      }
    }
  }
}
