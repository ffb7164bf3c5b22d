/**
 When the number of provider initialization attempts is bounded, as a condition
 on the numbers of the restart policy alone.

 The environment is at its worst when every attempt fails at once and every jitter
 is the most unfavourable one; the delays of that run decide the question.
 */
module AttemptBound {
  import opened Backoff
  import opened ProviderInit

  // ----- The least delays

  function Worst(p: RestartPolicy, k: nat): Duration {
    if k == 0 then p.initialDelay else NextDelay(p, Worst(p, k - 1), -1.0)
  }

  /** The time spent in the first n delays */
  function WorstSum(p: RestartPolicy, n: nat): Duration {
    if n == 0 then 0.0 else WorstSum(p, n - 1) + Worst(p, n - 1)
  }

  /** One step, in the numbers of the policy. */
  lemma WorstStep(p: RestartPolicy, d: Duration, factor: real, growth: real)
    requires p.maxDelay > 0.0 && factor == p.Factor() && growth == p.Growth()
    ensures NextDelay(p, d, -1.0) == if d * factor >= p.maxDelay then p.maxDelay else d * growth
    ensures 0.0 <= growth <= factor
  {
    var base, slack := d * factor, 1.0 - p.Spread();
    MulNonneg(factor, slack);
    ScaleDown(factor, slack, growth);
    if base >= p.maxDelay {
      CapReached(p, d, -1.0, factor);
    } else {
      var least := d * growth;
      MulNonneg(d, factor);
      MulNonneg(d, growth);
      WorstJitter(base, p.Spread());
      Regroup(d, factor, slack, growth);
      ScaleDown(base, slack, least);
      BelowCap(p, d, base, least);
    }
  }

  lemma BelowCap(p: RestartPolicy, d: Duration, base: real, least: real)
    requires base == d * p.Factor() && 0.0 <= base < p.maxDelay && 0.0 <= least <= base
    requires Jittered(base, p.Spread(), -1.0) == least
    ensures NextDelay(p, d, -1.0) == least
  {
  }

  lemma CapReached(p: RestartPolicy, d: Duration, u: Jitter, factor: real)
    requires p.maxDelay > 0.0 && factor == p.Factor() && d * factor >= p.maxDelay
    ensures NextDelay(p, d, u) == p.maxDelay
  {
  }

  lemma NoMaximum(p: RestartPolicy, d: Duration, u: Jitter)
    requires p.maxDelay <= 0.0
    ensures NextDelay(p, d, u) == 0.0
  {
  }

  lemma WorstIsLeast(p: RestartPolicy, c: Duration, d: Duration, u: Jitter)
    requires d <= c
    ensures NextDelay(p, d, -1.0) <= NextDelay(p, c, u)
  {
    hide NextDelay;
    if p.maxDelay <= 0.0 {
      NoMaximum(p, d, -1.0);
      NoMaximum(p, c, u);
    } else {
      var factor, growth := p.Factor(), p.Growth();
      var base := c * factor;
      if base >= p.maxDelay {
        CapReached(p, c, u, factor);
      } else {
        hide RestartPolicy.Factor, RestartPolicy.Growth;
        WorstStep(p, d, factor, growth);
        StepLowerBound(p, c, u, growth);
        Ordered(d, c, growth, factor, d * growth, c * growth, d * factor, base);
      }
    }
  }

  lemma Ordered(d: real, c: real, g: real, f: real, dg: real, cg: real, df: real, cf: real)
    requires 0.0 <= d <= c && 0.0 <= g <= f && dg == d * g && cg == c * g && df == d * f && cf == c * f
    ensures dg <= cg <= cf && df <= cf
  {
    MulMono(d, c, g);
    MulMono(d, c, f);
    MulMono(g, f, c);
  }

  /** No run of failures is faster than the worst one. */
  lemma {:induction false} DelayAboveWorst(p: RestartPolicy, us: seq<Jitter>)
    ensures DelayAfter(p, us) >= Worst(p, |us|)
    ensures (forall i :: 0 <= i < |us| ==> us[i] == -1.0) ==> DelayAfter(p, us) == Worst(p, |us|)
  {
    hide NextDelay;
    if us == [] {
    } else {
      var n := |us| - 1;
      DelayAboveWorst(p, us[..n]);
      WorstIsLeast(p, DelayAfter(p, us[..n]), Worst(p, n), us[n]);
    }
  }

  // ----- Their shape

  /** The worst delay after one failure */
  function First(p: RestartPolicy): real {
    if p.maxDelay <= 0.0 then 0.0
    else if p.initialDelay * p.Factor() >= p.maxDelay then p.maxDelay
    else p.initialDelay * p.Growth()
  }

  lemma FirstIs(p: RestartPolicy)
    ensures Worst(p, 1) == First(p) && 0.0 <= First(p) <= p.maxDelay
    ensures p.maxDelay <= 0.0 ==> First(p) == 0.0
  {
    hide NextDelay;
    assert Worst(p, 1) == NextDelay(p, Worst(p, 0), -1.0);
    if p.maxDelay <= 0.0 {
      NoMaximum(p, p.initialDelay, -1.0);
    } else {
      WorstStep(p, p.initialDelay, p.Factor(), p.Growth());
    }
  }

  /** From the first failure on the worst delays do not shrink. */
  predicate Steady(p: RestartPolicy) {
    First(p) > 0.0 && (p.Growth() >= 1.0 || First(p) * p.Factor() >= p.maxDelay)
  }

  lemma SteadyStep(p: RestartPolicy, d: Duration, next: Duration, factor: real, growth: real)
    requires factor == p.Factor() && growth == p.Growth() && 0.0 < d <= p.maxDelay
    requires (growth >= 1.0 || d * factor >= p.maxDelay) && next == NextDelay(p, d, -1.0)
    ensures d <= next <= p.maxDelay
    ensures growth >= 1.0 || next * factor >= p.maxDelay
  {
    hide NextDelay;
    WorstStep(p, d, factor, growth);
    var base := d * factor;
    if base >= p.maxDelay {
      MulMono(d, next, factor);
    } else {
      ScaleUp(d, growth, d * growth);
    }
  }

  lemma {:induction false} SteadyDelays(p: RestartPolicy, k: nat, factor: real, growth: real)
    requires factor == p.Factor() && growth == p.Growth() && Steady(p) && k >= 1
    ensures First(p) <= Worst(p, k) <= p.maxDelay
    ensures growth >= 1.0 || Worst(p, k) * factor >= p.maxDelay
  {
    hide First, NextDelay, RestartPolicy.Factor, RestartPolicy.Growth;
    FirstIs(p);
    if k == 1 {
      MulCong(First(p), Worst(p, k), factor);
    } else {
      SteadyDelays(p, k - 1, factor, growth);
      SteadyStep(p, Worst(p, k - 1), Worst(p, k), factor, growth);
    }
  }

  /** Otherwise they fall off geometrically, or vanish. */
  lemma {:induction false} FadingDelays(p: RestartPolicy, k: nat, factor: real, growth: real)
    requires factor == p.Factor() && growth == p.Growth() && !Steady(p) && k >= 1
    ensures Worst(p, k) <= First(p)
    ensures Worst(p, k + 1) == Worst(p, k) * growth
  {
    hide First, NextDelay, Steady, RestartPolicy.Factor, RestartPolicy.Growth;
    FirstIs(p);
    if k == 1 {
    } else {
      FadingDelays(p, k - 1, factor, growth);
      FadingStep(p, Worst(p, k - 1), Worst(p, k), growth);
    }
    FadingNext(p, Worst(p, k), factor, growth);
  }

  lemma FadingNext(p: RestartPolicy, d: Duration, factor: real, growth: real)
    requires factor == p.Factor() && growth == p.Growth() && !Steady(p) && d <= First(p)
    ensures NextDelay(p, d, -1.0) == d * growth
  {
    hide First, NextDelay, Worst;
    FirstIs(p);
    if p.maxDelay <= 0.0 {
      NoMaximum(p, d, -1.0);
      assert d == 0.0;
    } else {
      var first, base := First(p), d * factor;
      WorstStep(p, d, factor, growth);
      if first <= 0.0 {
        assert d == 0.0;
      } else {
        MulMono(d, first, factor);
      }
    }
  }

  lemma FadingStep(p: RestartPolicy, before: Duration, after: Duration, growth: real)
    requires growth == p.Growth() && !Steady(p) && before <= First(p) && after == before * growth
    ensures after <= First(p)
  {
    if First(p) <= 0.0 {
      assert before == 0.0;
    } else {
      ScaleDown(before, growth, after);
    }
  }

  // ----- When their sums stay below the timeout

  /**
   The condition on the policy: the worst delays are not steady, and what they
   add up to fits into the timeout.  A sum that is reached must be below the
   timeout; one that is only approached, initial + first / (1 - growth), may equal it.
   */
  predicate Endless(p: RestartPolicy) {
    && !Steady(p)
    && if First(p) == 0.0 || p.Growth() == 0.0 then p.initialDelay + First(p) < p.providerInitTimeout
       else First(p) <= (p.providerInitTimeout - p.initialDelay) * (1.0 - p.Growth())
  }

  lemma {:induction false} SumsGrow(p: RestartPolicy, m: nat, n: nat)
    requires m <= n
    ensures WorstSum(p, m) <= WorstSum(p, n)
    decreases n
  {
    if m == n {
    } else {
      SumsGrow(p, m, n - 1);
    }
  }

  lemma SumOfOne(p: RestartPolicy)
    ensures WorstSum(p, 1) == p.initialDelay
  {
    assert WorstSum(p, 1) == WorstSum(p, 0) + Worst(p, 0);
  }

  /** Delays that stay above w add up to multiples of w. */
  lemma {:induction false} LinearGrowth(p: RestartPolicy, w: real, n: nat)
    requires forall k :: 1 <= k <= n ==> Worst(p, k) >= w
    ensures WorstSum(p, n + 1) >= Multiple(w, n)
  {
    hide Worst;
    if n == 0 {
    } else {
      LinearGrowth(p, w, n - 1);
    }
  }

  lemma EnoughMultiples(w: real, t: real) returns (n: nat)
    requires w > 0.0 && t >= 0.0
    ensures Multiple(w, n) >= t
  {
    var q := t / w;
    assert q * w == t;
    assert q >= 0.0 by {
      if q < 0.0 {
        MulMono(q, 0.0, w);
      }
    }
    n := q.Floor + 1;
    MultipleIsProduct(w, n);
    MulMono(q, n as real, w);
  }

  lemma Faded(p: RestartPolicy, k: nat, growth: real, d: real)
    requires growth == p.Growth() && !Steady(p) && k >= 1 && d == Worst(p, k)
    ensures Worst(p, k + 1) == d * growth
  {
    hide First, NextDelay, Steady;
    FadingDelays(p, k, p.Factor(), growth);
    MulCong(d, Worst(p, k), growth);
  }

  /** What the time left leaves beyond the geometric tail that starts with d, times q. */
  function Slack(left: real, q: real, d: real): real {
    left * q - d
  }

  lemma SlackStep(left: real, q: real, growth: real, d: real, next: real)
    requires q == 1.0 - growth && next == d * growth
    ensures Slack(left - d, q, next) == Slack(left, q, d)
  {
    assert (left - d) * q == left * q - d * q;
    assert d * q == d - next;
  }

  /** It is the same at every point of the tail. */
  lemma {:induction false} TailBalance(p: RestartPolicy, k: nat, growth: real)
    requires growth == p.Growth() && !Steady(p) && k >= 1
    ensures Slack(p.providerInitTimeout - WorstSum(p, k), 1.0 - growth, Worst(p, k))
              == Slack(p.providerInitTimeout - p.initialDelay, 1.0 - growth, First(p))
  {
    hide First, NextDelay, Slack, Steady;
    FirstIs(p);
    if k == 1 {
      SumOfOne(p);
    } else {
      TailBalance(p, k - 1, growth);
      var d := Worst(p, k - 1);
      Faded(p, k - 1, growth, d);
      SlackStep(p.providerInitTimeout - WorstSum(p, k - 1), 1.0 - growth, growth, d, Worst(p, k));
    }
  }

  lemma {:induction false} TailPositive(p: RestartPolicy, k: nat, growth: real)
    requires growth == p.Growth() && growth > 0.0 && !Steady(p) && First(p) > 0.0 && k >= 1
    ensures Worst(p, k) > 0.0
  {
    hide First, NextDelay, Steady;
    FirstIs(p);
    if k == 1 {
    } else {
      TailPositive(p, k - 1, growth);
      var d := Worst(p, k - 1);
      Faded(p, k - 1, growth, d);
      assert d * growth > 0.0;
    }
  }

  lemma {:induction false} TailVanishes(p: RestartPolicy, k: nat, growth: real)
    requires growth == p.Growth() && !Steady(p) && (First(p) == 0.0 || growth == 0.0) && k >= 2
    ensures Worst(p, k) == 0.0 && WorstSum(p, k) == p.initialDelay + First(p)
  {
    hide First, NextDelay;
    FirstIs(p);
    SumOfOne(p);
    var d := Worst(p, k - 1);
    Faded(p, k - 1, growth, d);
    if k == 2 {
      assert d * growth == 0.0;
    } else {
      TailVanishes(p, k - 1, growth);
      assert d * growth == 0.0;
    }
  }

  /** A policy that is not endless exceeds its timeout after some number of delays. */
  lemma SumsExceed(p: RestartPolicy) returns (n: nat)
    requires !Endless(p)
    ensures WorstSum(p, n) >= p.providerInitTimeout
  {
    hide First, NextDelay, Worst;
    var growth, t := p.Growth(), p.providerInitTimeout;
    FirstIs(p);
    GrowthNonneg(p);
    if Steady(p) {
      var m := EnoughMultiples(First(p), t);
      forall k | 1 <= k <= m ensures Worst(p, k) >= First(p) {
        SteadyDelays(p, k, p.Factor(), growth);
      }
      LinearGrowth(p, First(p), m);
      n := m + 1;
    } else if First(p) == 0.0 || growth == 0.0 {
      n := 2;
      TailVanishes(p, n, growth);
    } else {
      n := TailExceeds(p, growth);
    }
  }

  /** Below the timeout the tail's delays stay above the amount by which it does not fit. */
  lemma TailExceeds(p: RestartPolicy, growth: real) returns (n: nat)
    requires growth == p.Growth() && growth > 0.0 && !Steady(p) && First(p) > 0.0 && !Endless(p)
    ensures WorstSum(p, n) >= p.providerInitTimeout
  {
    hide First, NextDelay, Worst;
    var t, q := p.providerInitTimeout, 1.0 - growth;
    var over := -Slack(t - p.initialDelay, q, First(p));
    assert over > 0.0;
    var m := EnoughMultiples(over, t);
    n := m + 1;
    if WorstSum(p, n) < t {
      forall k | 1 <= k <= m ensures Worst(p, k) >= over {
        SumsGrow(p, k, n);
        TailBalance(p, k, growth);
        MulNonneg(t - WorstSum(p, k), q);
      }
      LinearGrowth(p, over, m);
    }
  }

  /** An endless one never reaches it. */
  lemma SumsStayBelow(p: RestartPolicy, n: nat)
    requires Endless(p)
    ensures WorstSum(p, n) < p.providerInitTimeout
  {
    hide First, NextDelay, Worst;
    var growth, t := p.Growth(), p.providerInitTimeout;
    var k := n + 2;
    FirstIs(p);
    GrowthNonneg(p);
    SumsGrow(p, n, k);
    if First(p) == 0.0 || growth == 0.0 {
      TailVanishes(p, k, growth);
    } else {
      TailBalance(p, k, growth);
      TailPositive(p, k, growth);
      SlackPositive(t - WorstSum(p, k), 1.0 - growth, Worst(p, k));
    }
  }

  lemma GrowthNonneg(p: RestartPolicy)
    ensures p.Growth() >= 0.0
  {
    MulNonneg(p.Factor(), 1.0 - p.Spread());
  }

  lemma SlackPositive(left: real, q: real, d: real)
    requires q > 0.0 && d > 0.0 && Slack(left, q, d) >= 0.0
    ensures left > 0.0
  {
    if left <= 0.0 {
      ProductSign(left, q, left * q);
    }
  }

  lemma ProductSign(a: real, b: real, x: real)
    requires a <= 0.0 && b >= 0.0 && x == a * b
    ensures x <= 0.0
  {
  }

  // ----- Attempts

  /** The loop, called at `start`, starts n attempts in this environment. */
  ghost predicate Starts(p: RestartPolicy, start: real, n: nat, script: seq<Attempt<int>>, begin: real,
                         starts: seq<real>) {
    start <= begin && |starts| == n && Schedule(p, script, begin, start + p.providerInitTimeout, starts)
  }

  /** Some environment makes it start n attempts. */
  ghost predicate Reachable(p: RestartPolicy, start: real, n: nat) {
    exists script, begin, starts :: Starts(p, start, n, script, begin, starts)
  }

  /** Attempt k starts no sooner than k worst delays after the first. */
  lemma {:induction false} StartsAfterWorst<T>(p: RestartPolicy, script: seq<Attempt<T>>, begin: real, deadline: real,
                                               starts: seq<real>, k: nat)
    requires Schedule(p, script, begin, deadline, starts) && k < |starts|
    ensures starts[k] >= begin + WorstSum(p, k)
  {
    hide First, NextDelay, Worst, DelayAfter;
    if k == 0 {
    } else {
      StartsAfterWorst(p, script, begin, deadline, starts, k - 1);
      assert Follows(p, script, deadline, starts, k);
      DelayAboveWorst(p, Jitters(script[..k - 1]));
    }
  }

  /** The environment at its worst: every attempt fails at once and every jitter is -1. */
  lemma WorstRun(p: RestartPolicy, start: real, n: nat) returns (script: seq<Attempt<int>>, starts: seq<real>)
    requires n == 0 || WorstSum(p, n - 1) < p.providerInitTimeout
    ensures |starts| == n && Schedule(p, script, start, start + p.providerInitTimeout, starts)
  {
    hide First, NextDelay, Worst, DelayAfter;
    var instant: Attempt<int> := Attempt(0.0, Retryable(""), 0.0, false, -1.0);
    script := seq(n, _ => instant);
    starts := seq(n, k requires 0 <= k < n => start + WorstSum(p, k));
    var deadline := start + p.providerInitTimeout;
    forall k | 0 <= k < n ensures starts[k] < deadline {
      SumsGrow(p, k, n - 1);
    }
    forall k | 0 < k < n ensures Follows(p, script, deadline, starts, k) {
      DelayAboveWorst(p, Jitters(script[..k - 1]));
    }
  }

  /** Exactly how many attempts can start: as many as worst delays fit between them. */
  lemma ReachableIff(p: RestartPolicy, start: real, n: nat)
    ensures Reachable(p, start, n) <==> n == 0 || WorstSum(p, n - 1) < p.providerInitTimeout
  {
    if n == 0 || WorstSum(p, n - 1) < p.providerInitTimeout {
      var script, starts := WorstRun(p, start, n);
      assert Starts(p, start, n, script, start, starts);
    } else if Reachable(p, start, n) {
      var script, begin, starts :| Starts(p, start, n, script, begin, starts);
      StartsAfterWorst(p, script, begin, start + p.providerInitTimeout, starts, n - 1);
    }
  }

  /** Attempts are unbounded if and only if the policy is endless. */
  lemma UnboundedIff(p: RestartPolicy, start: real)
    ensures (forall n: nat :: Reachable(p, start, n)) <==> Endless(p)
  {
    if Endless(p) {
      forall n: nat ensures Reachable(p, start, n) {
        ReachableIff(p, start, n);
        if n > 0 {
          SumsStayBelow(p, n - 1);
        }
      }
    } else {
      var n := SumsExceed(p);
      ReachableIff(p, start, n + 1);
      assert !Reachable(p, start, n + 1);
    }
  }

  /**
   For every other policy one number bounds the attempts of every run, whatever
   the environment and the result type.
   */
  lemma BoundedOtherwise<T>(p: RestartPolicy, n: nat, script: seq<Attempt<T>>, start: real, begin: real,
                            starts: seq<real>)
    requires WorstSum(p, n) >= p.providerInitTimeout && start <= begin
    requires Schedule(p, script, begin, start + p.providerInitTimeout, starts)
    ensures |starts| <= n
  {
    if |starts| > n {
      StartsAfterWorst(p, script, begin, start + p.providerInitTimeout, starts, n);
    }
  }

  // ----- Familiar conditions

  /** Positive delays that never shrink are steady, hence bounded. */
  lemma GrowingIsSteady(p: RestartPolicy, factor: real, growth: real)
    requires factor == p.Factor() && growth == p.Growth()
    requires 0.0 < p.initialDelay <= p.maxDelay && growth >= 1.0
    ensures Steady(p) && !Endless(p)
  {
    var base, grown := p.initialDelay * factor, p.initialDelay * growth;
    ScaleUp(p.initialDelay, growth, grown);
  }

  /** The policy of the default configuration. */
  const DEFAULT_POLICY := RestartPolicy(1.0, 300.0, Finite(2.0), Finite(0.1), 60.0, 5.0)

  /** It bounds its attempts; full jitter, no maximum or a shrinking multiplier would not. */
  lemma EndlessExamples()
    ensures !Endless(DEFAULT_POLICY)
    ensures Endless(DEFAULT_POLICY.(jitterFactor := Finite(1.0)))
    ensures Endless(DEFAULT_POLICY.(maxDelay := 0.0))
    ensures Endless(DEFAULT_POLICY.(multiplier := Finite(0.5), jitterFactor := Finite(0.0)))
    ensures Endless(DEFAULT_POLICY.(initialDelay := 0.0))
  {
    GrowingIsSteady(DEFAULT_POLICY, 2.0, 1.8);
  }

  /** Without a first delay any number of attempts fits into a positive timeout. */
  lemma ZeroDelayUnbounded(p: RestartPolicy, start: real, n: nat)
    requires p.initialDelay == 0.0 && p.providerInitTimeout > 0.0
    ensures Endless(p) && Reachable(p, start, n)
  {
    assert First(p) == 0.0;
    UnboundedIff(p, start);
  }
}
