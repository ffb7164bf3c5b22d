/**
 The restart-storm guard: a sliding window of failure times that raises the
 restart delay once too many failures fall into it.
 */
module StormGuard {
  datatype Config = Config(window: nat, threshold: nat, suppressionDelay: nat)

  const DEFAULT_CONFIG := Config(20, 6, 30)

  datatype Decision = Decision(policyDelay: nat, effectiveDelay: nat, rateLimited: bool, windowFailures: nat)

  function Max(a: nat, b: nat): nat { if a >= b then a else b }

  predicate Expired(failure: nat, now: nat, window: nat) {
    failure <= now && now - failure > window
  }

  /** Drops failures from the front while the front one is out of the window. */
  function Pruned(failures: seq<nat>, now: nat, window: nat): seq<nat> {
    if failures != [] && Expired(failures[0], now, window) then Pruned(failures[1..], now, window) else failures
  }

  function Decide(config: Config, windowFailures: nat, policyDelay: nat): Decision {
    var stormDelay := if windowFailures >= config.threshold then config.suppressionDelay else 0;
    var effective := Max(policyDelay, stormDelay);
    Decision(policyDelay, effective, effective > policyDelay, windowFailures)
  }

  class RestartStormGuard {
    const config: Config
    var failures: seq<nat>
    /** Every failure since the last reset. */
    ghost var history: seq<nat>

    ghost predicate Valid()
      reads this
    {
      config.threshold >= 1 && failures == Recorded(history, config.window)
    }

    constructor (config: Config)
      ensures Valid() && history == []
      ensures this.config == config.(threshold := Max(config.threshold, 1))
    {
      this.config := config.(threshold := Max(config.threshold, 1));
      failures, history := [], [];
    }

    method Prune(now: nat)
      modifies `failures
      ensures failures == Pruned(old(failures), now, config.window)
    {
      while failures != [] && Expired(failures[0], now, config.window)
        invariant Pruned(failures, now, config.window) == Pruned(old(failures), now, config.window)
        decreases failures
      {
        failures := failures[1..];
      }
    }

    /** For nondecreasing times the window holds exactly the failures no older than `window`. */
    method RecordFailure(now: nat, policyDelay: nat) returns (d: Decision)
      requires Valid()
      modifies this
      ensures Valid() && history == old(history) + [now]
      ensures NonDecreasing(history) ==> failures == InWindow(history, now, config.window)
      ensures d == Decide(config, |failures|, policyDelay)
      ensures d.policyDelay == policyDelay && d.windowFailures == |failures|
      ensures NonDecreasing(history) ==> d.windowFailures == |InWindow(history, now, config.window)|
      ensures |failures| < config.threshold ==> d.effectiveDelay == policyDelay
      ensures |failures| >= config.threshold ==>
                && d.effectiveDelay >= policyDelay && d.effectiveDelay >= config.suppressionDelay
                && (d.effectiveDelay == policyDelay || d.effectiveDelay == config.suppressionDelay)
      ensures d.rateLimited <==> |failures| >= config.threshold && config.suppressionDelay > policyDelay
    {
      Prune(now);
      failures := failures + [now];
      history := history + [now];
      var stormDelay := if |failures| >= config.threshold then config.suppressionDelay else 0;
      var effective := Max(policyDelay, stormDelay);
      d := Decision(policyDelay, effective, effective > policyDelay, |failures|);
      assert history[..|history| - 1] == old(history);
      if NonDecreasing(history) {
        WindowIsFilter(history, config.window);
      }
    }

    method MaybeReset(elapsed: nat, resetAfter: nat)
      requires Valid()
      modifies this
      ensures Valid()
      ensures history == if elapsed >= resetAfter then [] else old(history)
    {
      if elapsed >= resetAfter {
        failures, history := [], [];
      }
    }
  }

  // ----- The window is a filter over the history

  predicate NonDecreasing(times: seq<nat>) {
    forall i, j :: 0 <= i < j < |times| ==> times[i] <= times[j]
  }

  /** The deque after recording every time of a history, in order. */
  function Recorded(times: seq<nat>, window: nat): seq<nat> {
    if times == [] then []
    else Pruned(Recorded(times[..|times| - 1], window), times[|times| - 1], window) + [times[|times| - 1]]
  }

  function InWindow(times: seq<nat>, now: nat, window: nat): seq<nat> {
    if times == [] then []
    else (if Expired(times[0], now, window) then [] else [times[0]]) + InWindow(times[1..], now, window)
  }

  lemma {:induction false} AllLive(times: seq<nat>, now: nat, window: nat)
    requires forall i :: 0 <= i < |times| ==> !Expired(times[i], now, window)
    ensures InWindow(times, now, window) == times
  {
    if times == [] {
    } else {
      AllLive(times[1..], now, window);
    }
  }

  lemma {:induction false} InWindowAppend(times: seq<nat>, t: nat, now: nat, window: nat)
    ensures InWindow(times + [t], now, window) ==
            InWindow(times, now, window) + (if Expired(t, now, window) then [] else [t])
  {
    if times == [] {
      assert [] + [t] == [t];
    } else {
      assert (times + [t])[1..] == times[1..] + [t];
      InWindowAppend(times[1..], t, now, window);
    }
  }

  /** On sorted times, dropping the expired front is the same as filtering. */
  lemma {:induction false} PruneIsFilter(times: seq<nat>, now: nat, window: nat)
    requires NonDecreasing(times)
    ensures Pruned(times, now, window) == InWindow(times, now, window)
  {
    if times == [] {
    } else {
      if Expired(times[0], now, window) {
        PruneIsFilter(times[1..], now, window);
      } else {
        AllLive(times, now, window);
      }
    }
  }

  /** Filtering at an earlier time first loses nothing. */
  lemma {:induction false} FilterTwice(times: seq<nat>, earlier: nat, now: nat, window: nat)
    requires earlier <= now
    ensures InWindow(InWindow(times, earlier, window), now, window) == InWindow(times, now, window)
  {
    if times == [] {
    } else {
      FilterTwice(times[1..], earlier, now, window);
      var rest := InWindow(times[1..], earlier, window);
      assert ([times[0]] + rest)[1..] == rest;
      assert [] + rest == rest;
    }
  }

  lemma {:induction false} FilterKeepsOrder(times: seq<nat>, now: nat, window: nat)
    requires NonDecreasing(times)
    ensures NonDecreasing(InWindow(times, now, window))
    ensures forall i :: 0 <= i < |InWindow(times, now, window)| ==> times[0] <= InWindow(times, now, window)[i]
  {
    if times == [] {
    } else {
      FilterKeepsOrder(times[1..], now, window);
    }
  }

  /** For every nondecreasing history the deque is exactly the failures within `window` of the last one. */
  lemma {:induction false} WindowIsFilter(times: seq<nat>, window: nat)
    requires NonDecreasing(times) && times != []
    ensures Recorded(times, window) == InWindow(times, times[|times| - 1], window)
  {
    var n := |times|;
    var front, now := times[..n - 1], times[n - 1];
    assert front + [now] == times;
    InWindowAppend(front, now, now, window);
    if n > 1 {
      var earlier := front[n - 2];
      WindowIsFilter(front, window);
      FilterTwice(front, earlier, now, window);
      FilterKeepsOrder(front, earlier, window);
      PruneIsFilter(InWindow(front, earlier, window), now, window);
    }
  }

  // ----- The guard bounds the failures in a window

  /** Each failure comes no sooner than the delay decided at the previous one. */
  ghost predicate Paced(config: Config, times: seq<nat>, policyDelays: seq<nat>) {
    && |policyDelays| == |times|
    && forall i :: 0 < i < |times| ==> times[i] >= times[i - 1] + DelayAt(config, times, policyDelays, i - 1)
  }

  /** The delay decided at failure i */
  function DelayAt(config: Config, times: seq<nat>, policyDelays: seq<nat>, i: nat): nat
    requires i < |times| && i < |policyDelays|
  {
    Decide(config, |Recorded(times[..i + 1], config.window)|, policyDelays[i]).effectiveDelay
  }

  predicate AtMost(times: seq<nat>, bound: nat) {
    forall i :: 0 <= i < |times| ==> times[i] <= bound
  }

  /** Pruning drops exactly the expired front. */
  lemma {:induction false} PrunedSuffix(failures: seq<nat>, now: nat, window: nat) returns (k: nat)
    ensures k <= |failures| && Pruned(failures, now, window) == failures[k..]
    ensures forall i :: 0 <= i < k ==> Expired(failures[i], now, window)
    ensures k < |failures| ==> !Expired(failures[k], now, window)
  {
    k := 0;
    if failures != [] && Expired(failures[0], now, window) {
      k := PrunedSuffix(failures[1..], now, window);
      assert failures[1..][k..] == failures[k + 1..];
      k := k + 1;
    }
  }

  lemma {:induction false} RecordedBelow(times: seq<nat>, window: nat, bound: nat)
    requires AtMost(times, bound)
    ensures AtMost(Recorded(times, window), bound)
  {
    if times == [] {
    } else {
      RecordedBelow(times[..|times| - 1], window, bound);
      var k := PrunedSuffix(Recorded(times[..|times| - 1], window), times[|times| - 1], window);
    }
  }

  lemma {:induction false} PacedIsMonotone(config: Config, times: seq<nat>, policyDelays: seq<nat>, i: nat, j: nat)
    requires Paced(config, times, policyDelays) && i <= j < |times|
    ensures times[i] <= times[j]
    decreases j
  {
    if i == j {
    } else {
      PacedIsMonotone(config, times, policyDelays, i, j - 1);
    }
  }

  /** With a suppression delay longer than the window no paced run ever exceeds the threshold. */
  lemma {:induction false} StormBound(config: Config, times: seq<nat>, policyDelays: seq<nat>, n: nat)
    requires config.threshold >= 1 && config.suppressionDelay > config.window
    requires Paced(config, times, policyDelays) && n <= |times|
    ensures |Recorded(times[..n], config.window)| <= config.threshold
  {
    if n == 0 {
    } else {
      StormBound(config, times, policyDelays, n - 1);
      var now := times[n - 1];
      var before := Recorded(times[..n - 1], config.window);
      assert times[..n][..n - 1] == times[..n - 1];
      var k := PrunedSuffix(before, now, config.window);
      if |before| == config.threshold {
        var last := times[n - 2];
        assert now >= last + DelayAt(config, times, policyDelays, n - 2);
        forall i | 0 <= i < n - 1 ensures times[i] <= last {
          PacedIsMonotone(config, times, policyDelays, i, n - 2);
        }
        RecordedBelow(times[..n - 1], config.window, last);
      }
    }
  }

  function Zeros(n: nat): seq<nat> { seq(n, _ => 0) }

  lemma {:induction false} RecordedZeros(n: nat, window: nat)
    ensures Recorded(Zeros(n), window) == Zeros(n)
  {
    if n == 0 {
    } else {
      RecordedZeros(n - 1, window);
      assert Zeros(n)[..n - 1] == Zeros(n - 1);
    }
  }

  /** A burst at time zero followed by one failure right after the suppression delay. */
  lemma BurstIsPaced(config: Config)
    requires config.threshold >= 1 && config.suppressionDelay <= config.window
    ensures var times := Zeros(config.threshold) + [config.suppressionDelay];
            && Paced(config, times, Zeros(config.threshold + 1))
            && |Recorded(times, config.window)| == config.threshold + 1
  {
    hide Recorded, Pruned;
    var k := config.threshold;
    var times := Zeros(k) + [config.suppressionDelay];
    forall i | 0 < i < |times|
      ensures times[i] >= times[i - 1] + DelayAt(config, times, Zeros(k + 1), i - 1)
    {
      assert times[..i] == Zeros(i);
      RecordedZeros(i, config.window);
    }
    BurstRecorded(config, times);
  }

  lemma BurstRecorded(config: Config, times: seq<nat>)
    requires config.suppressionDelay <= config.window
    requires times == Zeros(config.threshold) + [config.suppressionDelay]
    ensures |Recorded(times, config.window)| == config.threshold + 1
  {
    var k := config.threshold;
    assert times[..|times| - 1] == Zeros(k);
    RecordedZeros(k, config.window);
    assert Pruned(Zeros(k), times[|times| - 1], config.window) == Zeros(k);
  }

  /** The bound holds in every paced run exactly when suppression outlasts the window. */
  lemma StormBoundIff(config: Config)
    requires config.threshold >= 1
    ensures (forall times, delays ::
               Paced(config, times, delays) ==> |Recorded(times, config.window)| <= config.threshold) <==>
            config.suppressionDelay > config.window
  {
    if config.suppressionDelay > config.window {
      forall times, delays | Paced(config, times, delays)
        ensures |Recorded(times, config.window)| <= config.threshold
      {
        StormBound(config, times, delays, |times|);
        assert times[..|times|] == times;
      }
    } else {
      BurstIsPaced(config);
    }
  }

  // ----- Whole runs, resets included

  datatype Event = Failure(at: nat, policyDelay: nat) | Reset

  function Front(events: seq<Event>): seq<Event>
    requires events != []
  {
    events[..|events| - 1]
  }

  function SinceReset(events: seq<Event>): seq<nat> {
    if events == [] || events[|events| - 1].Reset? then [] else SinceReset(Front(events)) + [events[|events| - 1].at]
  }

  /** The deque after any mixture of failures and resets. */
  function Deque(events: seq<Event>, window: nat): seq<nat> {
    if events == [] || events[|events| - 1].Reset? then []
    else
      var now := events[|events| - 1].at;
      Pruned(Deque(Front(events), window), now, window) + [now]
  }

  /** It depends only on the failures since the last reset. */
  lemma {:induction false} DequeForgets(events: seq<Event>, window: nat)
    ensures Deque(events, window) == Recorded(SinceReset(events), window)
  {
    if events != [] && events[|events| - 1].Failure? {
      DequeForgets(Front(events), window);
      var times := SinceReset(events);
      assert times[..|times| - 1] == SinceReset(Front(events));
    }
  }

  function LastTime(events: seq<Event>): nat {
    if events == [] then 0
    else if events[|events| - 1].Failure? then events[|events| - 1].at
    else LastTime(Front(events))
  }

  /** The delay decided at the last failure; a reset does not shorten it. */
  function LastDelay(config: Config, events: seq<Event>): nat {
    if events == [] then 0
    else if events[|events| - 1].Failure? then
      Decide(config, |Deque(events, config.window)|, events[|events| - 1].policyDelay).effectiveDelay
    else LastDelay(config, Front(events))
  }

  ghost predicate PacedRun(config: Config, events: seq<Event>) {
    events != [] ==>
      && PacedRun(config, Front(events))
      && (events[|events| - 1].Failure? ==>
            events[|events| - 1].at >= LastTime(Front(events)) + LastDelay(config, Front(events)))
  }

  /** However resets are mixed in, no paced run exceeds the threshold. */
  lemma {:induction false} StormBoundWithResets(config: Config, events: seq<Event>)
    requires config.threshold >= 1 && config.suppressionDelay > config.window && PacedRun(config, events)
    ensures |Deque(events, config.window)| <= config.threshold
    ensures AtMost(Deque(events, config.window), LastTime(events))
  {
    if events == [] {
    } else {
      var before := Front(events);
      StormBoundWithResets(config, before);
      if events[|events| - 1].Failure? {
        var deque, now := Deque(before, config.window), events[|events| - 1].at;
        var k := PrunedSuffix(deque, now, config.window);
        if |deque| == config.threshold {
          assert LastDelay(config, before) >= config.suppressionDelay;
        }
      }
    }
  }

  /** The default configuration suppresses for longer than its window, so its bound of six holds in every paced run. */
  lemma DefaultBound(events: seq<Event>)
    requires PacedRun(DEFAULT_CONFIG, events)
    ensures |Deque(events, DEFAULT_CONFIG.window)| <= 6
  {
    StormBoundWithResets(DEFAULT_CONFIG, events);
  }
}
