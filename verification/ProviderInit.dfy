/**
 The provider initialization loop: attempts under one deadline, separated by
 the backoff delays of the restart policy.

 The environment is a script: for each attempt how long it runs and how it ends,
 by how much the following sleep overshoots, whether the sleep is cancelled, and
 the jitter drawn for the next delay.  A loop that outlives its script is
 reported as unfinished, so a script stands for any finite prefix of a run.
 */
module ProviderInit {
  import opened Wrappers
  import opened Backoff

  const RECENT_ERROR_LIMIT: nat := 4

  datatype SourceKind =
    | UserProviderFatal | UserProviderRetryableTimeout | EnvironmentMissing | EnvironmentParse
    | DependencyProvider | Panic | Cancelled | Timeout | FrameworkGraphValidation
    | FrameworkEagerInit | SystemIoFatal | SystemIoRetryable | Unknown

  datatype AttemptEnd<T> =
    | Ready(value: T)
    | Fatal(message: string)
    | Retryable(message: string)
    | OutOfTime
    | CancelledMeanwhile

  datatype Attempt<T> = Attempt(took: Duration, end: AttemptEnd<T>, overslept: Duration, sleepCancelled: bool,
                                jitter: Jitter)

  /** A timeout without a last error carries the source's fixed text for an attempt that never completed. */
  datatype Result<T> =
    | Initialized(value: T)
    | FatalFailure(message: string, source: SourceKind)
    | CancelledFailure(source: SourceKind)
    | TimeoutFailure(lastError: Option<string>, source: SourceKind, attempts: nat, elapsed: Duration,
                     lastDelay: Option<Duration>, recentErrors: seq<string>)
    | Unfinished

  /** What the loop remembers about the retryable errors it has seen. */
  datatype Facts = Facts(lastError: Option<string>, attempts: nat, recent: seq<string>)

  function TimeoutSource(lastError: Option<string>, retryable: SourceKind): SourceKind {
    if lastError.Some? then retryable else Timeout
  }

  function PushRecent(recent: seq<string>, message: string): seq<string> {
    (if |recent| == RECENT_ERROR_LIMIT then recent[1..] else recent) + [message]
  }

  function Noted(f: Facts, message: string): Facts {
    Facts(Some(message), if f.attempts < U32_MAX then f.attempts + 1 else f.attempts, PushRecent(f.recent, message))
  }

  // ----- When attempts start

  function Jitters<T>(script: seq<Attempt<T>>): seq<Jitter> {
    seq(|script|, i requires 0 <= i < |script| => script[i].jitter)
  }

  /** The sleep after attempt k, cut at the deadline. */
  function SleepAfter<T>(policy: RestartPolicy, script: seq<Attempt<T>>, k: nat, ended: real, deadline: real): (d: real)
    requires k < |script|
    ensures d <= DelayAfter(policy, Jitters(script[..k])) && ended + d <= deadline
    ensures ended + DelayAfter(policy, Jitters(script[..k])) <= deadline ==>
              d == DelayAfter(policy, Jitters(script[..k]))
    ensures ended + DelayAfter(policy, Jitters(script[..k])) >= deadline ==> ended + d == deadline
    ensures k == 0 && ended + policy.initialDelay <= deadline ==> d == policy.initialDelay
  {
    Min(DelayAfter(policy, Jitters(script[..k])), deadline - ended)
  }

  /** Attempt k failed retryably before the deadline and its sleep was not cancelled. */
  predicate Continues<T>(a: Attempt<T>, started: real, deadline: real) {
    a.end.Retryable? && !a.sleepCancelled && started + a.took < deadline
  }

  ghost predicate Schedule<T>(policy: RestartPolicy, script: seq<Attempt<T>>, begin: real, deadline: real,
                              starts: seq<real>) {
    && |starts| <= |script|
    && (starts != [] ==> starts[0] == begin)
    && (forall k :: 0 <= k < |starts| ==> starts[k] < deadline)
    && (forall k :: 0 < k < |starts| ==> Follows(policy, script, deadline, starts, k))
  }

  ghost predicate Follows<T>(policy: RestartPolicy, script: seq<Attempt<T>>, deadline: real, starts: seq<real>, k: nat)
    requires 0 < k < |starts| <= |script|
  {
    var a, started := script[k - 1], starts[k - 1];
    && Continues(a, started, deadline)
    && starts[k] == started + a.took + SleepAfter(policy, script, k - 1, started + a.took, deadline) + a.overslept
  }

  /** When the attempt after the last one would start. */
  function NextStart<T>(policy: RestartPolicy, script: seq<Attempt<T>>, begin: real, deadline: real,
                        starts: seq<real>): real
    requires |starts| <= |script|
  {
    if starts == [] then begin
    else
      var k := |starts| - 1;
      var ended := starts[k] + script[k].took;
      ended + SleepAfter(policy, script, k, ended, deadline) + script[k].overslept
  }

  /**
   No further attempt may start: the script ends, the last attempt does not
   lead to another, or the deadline is there.
   */
  ghost predicate Stuck<T>(policy: RestartPolicy, script: seq<Attempt<T>>, begin: real, deadline: real,
                           starts: seq<real>) {
    |starts| < |script| ==>
      || (starts != [] && !Continues(script[|starts| - 1], starts[|starts| - 1], deadline))
      || NextStart(policy, script, begin, deadline, starts) >= deadline
  }

  /** The environment fixes when attempts start, so a schedule that is stuck is as long as any. */
  lemma {:induction false} StuckIsMaximal<T>(policy: RestartPolicy, script: seq<Attempt<T>>, begin: real,
                                             deadline: real, starts: seq<real>, other: seq<real>)
    requires Schedule(policy, script, begin, deadline, starts) && Stuck(policy, script, begin, deadline, starts)
    requires Schedule(policy, script, begin, deadline, other)
    ensures other <= starts
  {
    hide SleepAfter;
    var n := |starts|;
    if |other| > n {
      assert n > 0 ==> Follows(policy, script, deadline, other, n);
      assert n > 0 ==> other[..n][n - 1] == other[n - 1];
      SameStarts(policy, script, begin, deadline, starts, other, n);
      assert false;
    }
    SameStarts(policy, script, begin, deadline, starts, other, |other|);
  }

  lemma {:induction false} SameStarts<T>(policy: RestartPolicy, script: seq<Attempt<T>>, begin: real, deadline: real,
                                         starts: seq<real>, other: seq<real>, n: nat)
    requires Schedule(policy, script, begin, deadline, starts) && n <= |starts|
    requires Schedule(policy, script, begin, deadline, other) && n <= |other|
    ensures other[..n] == starts[..n]
  {
    hide SleepAfter;
    if n == 0 {
    } else {
      SameStarts(policy, script, begin, deadline, starts, other, n - 1);
      if n > 1 {
        assert other[n - 2] == other[..n - 1][n - 2] == starts[..n - 1][n - 2] == starts[n - 2];
        assert Follows(policy, script, deadline, starts, n - 1) && Follows(policy, script, deadline, other, n - 1);
      }
    }
  }

  /** n copies of x added up */
  function Multiple(x: real, n: nat): real {
    if n == 0 then 0.0 else Multiple(x, n - 1) + x
  }

  /** With nonvanishing, nondecreasing delays attempt k starts at least k initial delays after the first. */
  lemma {:induction false} StartsSpread<T>(policy: RestartPolicy, script: seq<Attempt<T>>, begin: real, deadline: real,
                                           starts: seq<real>, k: nat)
    requires 0.0 < policy.initialDelay <= policy.maxDelay && policy.Growth() >= 1.0
    requires Schedule(policy, script, begin, deadline, starts) && k < |starts|
    ensures starts[k] >= begin + Multiple(policy.initialDelay, k)
  {
    if k == 0 {
    } else {
      StartsSpread(policy, script, begin, deadline, starts, k - 1);
      assert Follows(policy, script, deadline, starts, k);
      var us := Jitters(script[..k - 1]);
      NeverDecreases(policy, us, 0);
    }
  }

  function Ceiling(x: real): int {
    -((-x).Floor)
  }

  lemma {:induction false} MultipleIsProduct(x: real, n: nat)
    ensures Multiple(x, n) == n as real * x
  {
    if n == 0 {
    } else {
      MultipleIsProduct(x, n - 1);
      var m := (n - 1) as real;
      assert n as real == m + 1.0;
      assert (m + 1.0) * x == m * x + x;
    }
  }

  lemma CeilingBound(n: nat, x: real, t: real)
    requires x > 0.0 && n >= 1 && Multiple(x, n - 1) < t
    ensures n <= Ceiling(t / x)
  {
    MultipleIsProduct(x, n - 1);
    var q, m := t / x, (n - 1) as real;
    assert q * x == t;
    assert m < q by {
      if q <= m {
        MulMono(q, m, x);
      }
    }
    assert n - 1 < Ceiling(q);
  }

  /** At most ceil(timeout / initial delay) attempts start, whatever the environment does. */
  lemma AttemptsBounded<T>(policy: RestartPolicy, script: seq<Attempt<T>>, start: real, begin: real, starts: seq<real>)
    requires 0.0 < policy.initialDelay <= policy.maxDelay && policy.Growth() >= 1.0
    requires start <= begin && Schedule(policy, script, begin, start + policy.providerInitTimeout, starts)
    ensures |starts| <= Ceiling(policy.providerInitTimeout / policy.initialDelay)
  {
    var t, x := policy.providerInitTimeout, policy.initialDelay;
    if starts == [] {
      assert t / x >= 0.0;
    } else {
      StartsSpread(policy, script, begin, start + t, starts, |starts| - 1);
      CeilingBound(|starts|, x, t);
    }
  }

  // ----- What a timeout reports

  function LastOf(errors: seq<string>, n: nat): seq<string> {
    if |errors| <= n then errors else errors[|errors| - n..]
  }

  /** The facts after a list of errors */
  function FactsOf(errors: seq<string>): Facts {
    Facts(if errors == [] then None else Some(errors[|errors| - 1]),
          if |errors| <= U32_MAX then |errors| else U32_MAX,
          LastOf(errors, RECENT_ERROR_LIMIT))
  }

  lemma NotedAppends(errors: seq<string>, message: string)
    ensures Noted(FactsOf(errors), message) == FactsOf(errors + [message])
  {
    var more := errors + [message];
    assert more[|more| - 1] == message;
    if |errors| < RECENT_ERROR_LIMIT {
      assert PushRecent(errors, message) == more == LastOf(more, RECENT_ERROR_LIMIT);
    } else {
      PushDropsOldest(errors, message);
    }
  }

  lemma PushDropsOldest(errors: seq<string>, message: string)
    requires |errors| >= RECENT_ERROR_LIMIT
    ensures PushRecent(LastOf(errors, RECENT_ERROR_LIMIT), message) == LastOf(errors + [message], RECENT_ERROR_LIMIT)
  {
    var n := |errors|;
    var last, more := LastOf(errors, RECENT_ERROR_LIMIT), errors + [message];
    assert last == errors[n - RECENT_ERROR_LIMIT..];
    assert last[1..] == errors[n + 1 - RECENT_ERROR_LIMIT..];
    assert LastOf(more, RECENT_ERROR_LIMIT) == more[n + 1 - RECENT_ERROR_LIMIT..];
  }

  /** A timeout names the retryable errors seen: how many, the latest, the last four in order. */
  ghost predicate ReportsErrors<T>(r: Result<T>, errors: seq<string>, retryable: SourceKind)
    requires r.TimeoutFailure?
  {
    && r.attempts == (if |errors| <= U32_MAX then |errors| else U32_MAX)
    && r.recentErrors == LastOf(errors, 4)
    && r.lastError == (if errors == [] then None else Some(errors[|errors| - 1]))
    && r.source == (if errors == [] then Timeout else retryable)
  }

  ghost predicate Explains<T>(r: Result<T>, script: seq<Attempt<T>>, errors: seq<string>, fatal: SourceKind,
                              retryable: SourceKind, timeout: Duration)
    requires |errors| <= |script|
  {
    match r
    case Initialized(value) => |errors| < |script| && script[|errors|].end == Ready(value)
    case FatalFailure(message, source) =>
      |errors| < |script| && script[|errors|].end == Fatal(message) && source == fatal
    case CancelledFailure(source) =>
      && source == Cancelled
      && ((|errors| < |script| && script[|errors|].end.CancelledMeanwhile?)
          || (|errors| > 0 && script[|errors| - 1].sleepCancelled))
    case TimeoutFailure(_, _, _, elapsed, _, _) => elapsed >= timeout && ReportsErrors(r, errors, retryable)
    case Unfinished => |errors| == |script|
  }

  /** The errors are the messages of the leading attempts, all of which failed retryably. */
  predicate Seen<T>(script: seq<Attempt<T>>, errors: seq<string>) {
    |errors| <= |script| && forall i :: 0 <= i < |errors| ==> script[i].end == Retryable(errors[i])
  }

  /** The n-th attempt was followed by a sleep of the given length; none was when n is 0. */
  ghost predicate Slept<T>(policy: RestartPolicy, script: seq<Attempt<T>>, deadline: real, starts: seq<real>, n: nat,
                           delay: Option<Duration>)
    requires n <= |starts| && n <= |script|
  {
    if n == 0 then delay.None?
    else
      && Continues(script[n - 1], starts[n - 1], deadline)
      && delay.Some? && delay.value == SleepAfter(policy, script, n - 1, starts[n - 1] + script[n - 1].took, deadline)
  }

  /**
   How many sleeps were taken by the time of a result: one per error, unless
   the last error came too late to sleep.
   */
  function Sleeps<T>(script: seq<Attempt<T>>, deadline: real, starts: seq<real>, n: nat): nat
    requires n <= |starts| && n <= |script|
  {
    if n > 0 && !Continues(script[n - 1], starts[n - 1], deadline) then n - 1 else n
  }

  /** A timeout names the last sleep taken. */
  ghost predicate ReportsDelay<T>(r: Result<T>, policy: RestartPolicy, script: seq<Attempt<T>>, deadline: real,
                                  starts: seq<real>, n: nat)
    requires n <= |starts| && n <= |script|
  {
    r.TimeoutFailure? ==> Slept(policy, script, deadline, starts, Sleeps(script, deadline, starts, n), r.lastDelay)
  }

  ghost predicate TimesOutAt<T>(r: Result<T>, elapsed: real) {
    r.TimeoutFailure? && r.elapsed == elapsed
  }

  /**
   What the environment makes of the call, from the attempts to the result.  The
   attempt after the errors, if one was started, decides; else the last error
   came too late, or its sleep was cancelled, or the next attempt would be too
   late, or the script is over.
   */
  ghost predicate Verdict<T>(r: Result<T>, policy: RestartPolicy, script: seq<Attempt<T>>, start: real, begin: real,
                             deadline: real, starts: seq<real>, errors: seq<string>, fatal: SourceKind)
    requires |errors| <= |starts| <= |errors| + 1 && |starts| <= |script|
  {
    var n := |errors|;
    if |starts| == n + 1 then
      var ended := starts[n] + script[n].took;
      match script[n].end
      case Ready(value) => r == Initialized(value)
      case Fatal(message) => r == FatalFailure(message, fatal)
      case CancelledMeanwhile => r == CancelledFailure(Cancelled)
      case OutOfTime => TimesOutAt(r, (if ended >= deadline then ended else deadline) - start)
      case Retryable(_) => false
    else if n > 0 && starts[n - 1] + script[n - 1].took >= deadline then
      TimesOutAt(r, starts[n - 1] + script[n - 1].took - start)
    else if n > 0 && script[n - 1].sleepCancelled then r == CancelledFailure(Cancelled)
    else
      var next := NextStart(policy, script, begin, deadline, starts);
      if next >= deadline then TimesOutAt(r, next - start) else r == Unfinished && n == |script|
  }

  /** When the call times out, as a condition on the environment. */
  lemma TimeoutIff<T>(r: Result<T>, policy: RestartPolicy, script: seq<Attempt<T>>, start: real, begin: real,
                      deadline: real, starts: seq<real>, errors: seq<string>, fatal: SourceKind)
    requires |errors| <= |starts| <= |errors| + 1 && |starts| <= |script|
    requires Verdict(r, policy, script, start, begin, deadline, starts, errors, fatal)
    ensures var n := |errors|;
            r.TimeoutFailure? <==>
              || (|starts| == n + 1 && script[n].end.OutOfTime?)
              || (|starts| == n && n > 0 && starts[n - 1] + script[n - 1].took >= deadline)
              || (|starts| == n && (n == 0 || !script[n - 1].sleepCancelled)
                  && NextStart(policy, script, begin, deadline, starts) >= deadline)
  {
    hide SleepAfter;
    var n := |errors|;
    if |starts| == n && n > 0 && starts[n - 1] + script[n - 1].took < deadline && script[n - 1].sleepCancelled {
      assert r == CancelledFailure(Cancelled);
    }
  }

  /** Between two attempts: everything started so far failed retryably and was on schedule. */
  ghost predicate Underway<T>(policy: RestartPolicy, script: seq<Attempt<T>>, begin: real, deadline: real,
                              starts: seq<real>, errors: seq<string>, now: real)
  {
    && now >= begin && |starts| == |errors| && Seen(script, errors)
    && Schedule(policy, script, begin, deadline, starts)
    && NextFits(policy, script, begin, deadline, starts, now)
  }

  method InitFallibleWithSource<T>(policy: RestartPolicy, fatal: SourceKind, retryable: SourceKind, start: real,
                                   begin: real, script: seq<Attempt<T>>)
    returns (r: Result<T>, starts: seq<real>, errors: seq<string>)
    requires start <= begin
    ensures Schedule(policy, script, begin, start + policy.providerInitTimeout, starts)
    ensures |errors| <= |starts| <= |errors| + 1 && |starts| <= |script| && Seen(script, errors)
    ensures Explains(r, script, errors, fatal, retryable, policy.providerInitTimeout)
    ensures ReportsDelay(r, policy, script, start + policy.providerInitTimeout, starts, |errors|)
    ensures Stuck(policy, script, begin, start + policy.providerInitTimeout, starts)
    ensures Verdict(r, policy, script, start, begin, start + policy.providerInitTimeout, starts, errors, fatal)
  {
    hide NextDelay, DelayAfter, Jitters, Explains, Schedule, NextFits, FactsOf, TimedOut, Slept, Sleeps,
        ReportsDelay, Stuck, Verdict;
    var deadline := start + policy.providerInitTimeout;
    var now := begin;
    var facts := Facts(None, 0, []);
    var lastDelay: Option<Duration> := None;
    var backoff := new BackoffController(policy);
    var done: Option<Result<T>> := None;
    starts, errors := [], [];
    NothingStarted(policy, script, begin, deadline);
    while done.None?
      invariant done.None? ==>
                Underway(policy, script, begin, deadline, starts, errors, now) && facts == FactsOf(errors)
      invariant done.None? ==> Synced(backoff, policy, script, errors)
      invariant done.None? ==> Slept(policy, script, deadline, starts, |errors|, lastDelay)
      invariant done.Some? ==> Finished(policy, script, begin, deadline, starts, errors)
      invariant done.Some? ==> Explains(done.value, script, errors, fatal, retryable, deadline - start)
      invariant done.Some? ==> ReportsDelay(done.value, policy, script, deadline, starts, |errors|)
      invariant done.Some? ==> Stuck(policy, script, begin, deadline, starts)
      invariant done.Some? ==> Verdict(done.value, policy, script, start, begin, deadline, starts, errors, fatal)
      invariant |errors| <= |script|
      decreases done.None?, |script| - |errors|
    {
      if now >= deadline {
        DeadlineStops(policy, script, begin, deadline, starts, now);
        StopExplains(policy, script, deadline, starts, errors, now - start, lastDelay, fatal, retryable,
            deadline - start);
        LateVerdict(policy, script, start, begin, deadline, starts, errors, now, facts, lastDelay, fatal, retryable);
        done := Some(TimedOut(now - start, facts, lastDelay, retryable));
      } else if |errors| == |script| {
        UnfinishedExplains(policy, script, deadline, starts, errors, fatal, retryable, deadline - start);
        UnfinishedVerdict(policy, script, start, begin, deadline, starts, errors, now, fatal);
        done := Some(Unfinished);
      } else {
        SleptExtends(policy, script, deadline, starts, |errors|, lastDelay, now);
        starts := starts + [now];
        done, errors, facts, lastDelay, now :=
          RunAttempt(policy, script, begin, start, deadline, starts, errors, facts, lastDelay, backoff, now, fatal,
              retryable);
      }
    }
    r := done.value;
  }

  ghost predicate Synced<T>(backoff: BackoffController, policy: RestartPolicy, script: seq<Attempt<T>>,
                            errors: seq<string>)
    reads backoff
  {
    && |errors| <= |script|
    && backoff.Valid() && backoff.policy == policy && backoff.failures == Jitters(script[..|errors|])
  }

  ghost predicate Finished<T>(policy: RestartPolicy, script: seq<Attempt<T>>, begin: real, deadline: real,
                              starts: seq<real>, errors: seq<string>) {
    && Schedule(policy, script, begin, deadline, starts)
    && |errors| <= |starts| <= |errors| + 1 && |starts| <= |script| && Seen(script, errors)
  }

  /** The attempt started last: its end, and the sleep before the next one. */
  method RunAttempt<T>(policy: RestartPolicy, script: seq<Attempt<T>>, ghost begin: real, start: real, deadline: real,
                       ghost starts: seq<real>, errors: seq<string>, facts: Facts, lastDelay: Option<Duration>,
                       backoff: BackoffController, now: real, fatal: SourceKind, retryable: SourceKind)
    returns (done: Option<Result<T>>, errors': seq<string>, facts': Facts, lastDelay': Option<Duration>, now': real)
    requires start <= begin && start <= deadline && |errors| < |script| && now < deadline
    requires starts != [] && starts[|starts| - 1] == now
    requires Underway(policy, script, begin, deadline, starts[..|starts| - 1], errors, now)
    requires facts == FactsOf(errors) && Synced(backoff, policy, script, errors)
    requires Slept(policy, script, deadline, starts, |errors|, lastDelay)
    modifies backoff
    ensures |errors'| <= |script|
    ensures done.None? ==> |errors'| == |errors| + 1 && facts' == FactsOf(errors')
    ensures done.None? ==> Synced(backoff, policy, script, errors')
    ensures done.None? ==> Underway(policy, script, begin, deadline, starts, errors', now')
    ensures done.None? ==> Slept(policy, script, deadline, starts, |errors'|, lastDelay')
    ensures done.Some? ==> Finished(policy, script, begin, deadline, starts, errors')
    ensures done.Some? ==> Explains(done.value, script, errors', fatal, retryable, deadline - start)
    ensures done.Some? ==> ReportsDelay(done.value, policy, script, deadline, starts, |errors'|)
    ensures done.Some? ==> Stuck(policy, script, begin, deadline, starts)
    ensures done.Some? ==> Verdict(done.value, policy, script, start, begin, deadline, starts, errors', fatal)
  {
    hide NextDelay, DelayAfter, Jitters, Explains, Schedule, NextFits, FactsOf, Noted, TimedOut, Slept, Sleeps,
        ReportsDelay, Stuck, Verdict;
    var attempt := script[|errors|];
    assert starts == starts[..|starts| - 1] + [now];
    ScheduleExtends(policy, script, begin, deadline, starts[..|starts| - 1], now);
    errors', facts', lastDelay', now' := errors, facts, lastDelay, EndOfAttempt(attempt, now, deadline);
    if !attempt.end.Retryable? {
      TurnExplains(attempt, now', start, deadline, lastDelay, 0.0, script, errors, fatal, retryable);
      TurnReports(policy, script, starts, |errors|, start, deadline, facts, lastDelay, 0.0, fatal, retryable);
      EndStops(policy, script, begin, deadline, starts);
      TurnVerdict(policy, script, start, begin, deadline, starts, errors, errors, facts, lastDelay, 0.0, fatal,
                  retryable);
      done := Some(AfterAttempt(attempt, now', start, deadline, facts, lastDelay, 0.0, fatal, retryable).result);
      return;
    }
    NotedAppends(errors, attempt.end.message);
    facts' := Noted(facts, attempt.end.message);
    errors' := errors + [attempt.end.message];
    var turn := AfterAttempt(attempt, now', start, deadline, facts', lastDelay, backoff.currentDelay, fatal, retryable);
    if turn.Return? {
      TurnExplains(attempt, now', start, deadline, lastDelay, backoff.currentDelay, script, errors', fatal, retryable);
      TurnReports(policy, script, starts, |errors|, start, deadline, facts', lastDelay, backoff.currentDelay, fatal,
          retryable);
      EndStops(policy, script, begin, deadline, starts);
      TurnVerdict(policy, script, start, begin, deadline, starts, errors, errors', facts', lastDelay,
                  backoff.currentDelay, fatal, retryable);
      done := Some(turn.result);
      return;
    }
    RetryKeepsUnderway(policy, script, begin, deadline, starts, errors, now, turn.sleep);
    JittersAppend(script, |errors'|);
    done, lastDelay', now' := None, Some(turn.sleep), now' + turn.sleep + attempt.overslept;
    backoff.RecordFailure(attempt.jitter);
  }

  lemma SleptExtends<T>(policy: RestartPolicy, script: seq<Attempt<T>>, deadline: real, starts: seq<real>, n: nat,
                        delay: Option<Duration>, now: real)
    requires n <= |starts| && n <= |script| && Slept(policy, script, deadline, starts, n, delay)
    ensures Slept(policy, script, deadline, starts + [now], n, delay)
  {
    hide DelayAfter, NextDelay;
  }

  lemma DeadlineStops<T>(policy: RestartPolicy, script: seq<Attempt<T>>, begin: real, deadline: real,
                         starts: seq<real>, now: real)
    requires NextFits(policy, script, begin, deadline, starts, now) && now >= deadline
    ensures Stuck(policy, script, begin, deadline, starts)
  {
    hide SleepAfter;
  }

  lemma EndStops<T>(policy: RestartPolicy, script: seq<Attempt<T>>, begin: real, deadline: real, starts: seq<real>)
    requires 0 < |starts| <= |script| && !Continues(script[|starts| - 1], starts[|starts| - 1], deadline)
    ensures Stuck(policy, script, begin, deadline, starts)
  {
    hide SleepAfter;
  }

  lemma LateVerdict<T>(policy: RestartPolicy, script: seq<Attempt<T>>, start: real, begin: real, deadline: real,
                       starts: seq<real>, errors: seq<string>, now: real, facts: Facts, lastDelay: Option<Duration>,
                       fatal: SourceKind, retryable: SourceKind)
    requires |errors| == |starts| && NextFits(policy, script, begin, deadline, starts, now)
    requires start <= now && now >= deadline
    ensures Verdict(TimedOut(now - start, facts, lastDelay, retryable), policy, script, start, begin, deadline, starts,
                    errors, fatal)
  {
    hide SleepAfter;
  }

  lemma UnfinishedVerdict<T>(policy: RestartPolicy, script: seq<Attempt<T>>, start: real, begin: real, deadline: real,
                             starts: seq<real>, errors: seq<string>, now: real, fatal: SourceKind)
    requires |errors| == |starts| == |script|
    requires NextFits(policy, script, begin, deadline, starts, now) && now < deadline
    ensures Verdict(Unfinished, policy, script, start, begin, deadline, starts, errors, fatal)
  {
    hide SleepAfter;
  }

  /** A turn that returns: `errors` before it, `errors'` after it. */
  lemma TurnVerdict<T>(policy: RestartPolicy, script: seq<Attempt<T>>, start: real, begin: real, deadline: real,
                       starts: seq<real>, errors: seq<string>, errors': seq<string>, facts: Facts,
                       lastDelay: Option<Duration>, delay: Duration, fatal: SourceKind, retryable: SourceKind)
    requires |starts| == |errors| + 1 <= |script| && start <= starts[|errors|] < deadline
    requires |errors'| == if script[|errors|].end.Retryable? then |errors| + 1 else |errors|
    requires AfterAttempt(script[|errors|], EndOfAttempt(script[|errors|], starts[|errors|], deadline), start, deadline,
                          facts, lastDelay, delay, fatal, retryable).Return?
    ensures var ended := EndOfAttempt(script[|errors|], starts[|errors|], deadline);
            var turn := AfterAttempt(script[|errors|], ended, start, deadline, facts, lastDelay, delay, fatal,
                                     retryable);
            Verdict(turn.result, policy, script, start, begin, deadline, starts, errors', fatal)
  {
    hide SleepAfter;
    match script[|errors|].end {
      case CancelledMeanwhile =>
      case OutOfTime =>
      case Ready(_) =>
      case Fatal(_) =>
      case Retryable(_) =>
    }
  }

  lemma StopExplains<T>(policy: RestartPolicy, script: seq<Attempt<T>>, deadline: real, starts: seq<real>,
                        errors: seq<string>,
                        elapsed: Duration, lastDelay: Option<Duration>, fatal: SourceKind, retryable: SourceKind,
                        timeout: Duration)
    requires |errors| == |starts| <= |script| && elapsed >= timeout
    requires Slept(policy, script, deadline, starts, |errors|, lastDelay)
    ensures var r := TimedOut(elapsed, FactsOf(errors), lastDelay, retryable);
            && Explains(r, script, errors, fatal, retryable, timeout)
            && ReportsDelay(r, policy, script, deadline, starts, |errors|)
  {
    hide DelayAfter, NextDelay;
  }

  lemma UnfinishedExplains<T>(policy: RestartPolicy, script: seq<Attempt<T>>, deadline: real, starts: seq<real>,
                              errors: seq<string>, fatal: SourceKind, retryable: SourceKind, timeout: Duration)
    requires |errors| == |starts| == |script|
    ensures Explains(Unfinished, script, errors, fatal, retryable, timeout)
    ensures ReportsDelay(Unfinished, policy, script, deadline, starts, |errors|)
    ensures forall begin :: Stuck(policy, script, begin, deadline, starts)
  {
  }

  lemma NothingStarted<T>(policy: RestartPolicy, script: seq<Attempt<T>>, begin: real, deadline: real)
    ensures Underway(policy, script, begin, deadline, [], [], begin) && Facts(None, 0, []) == FactsOf([])
    ensures Slept(policy, script, deadline, [], 0, None) && Jitters(script[..0]) == []
  {
  }

  lemma RetryKeepsUnderway<T>(policy: RestartPolicy, script: seq<Attempt<T>>, begin: real, deadline: real,
                              starts: seq<real>, errors: seq<string>, started: real, sleep: Duration)
    requires Schedule(policy, script, begin, deadline, starts) && |starts| == |errors| + 1
    requires Seen(script, errors) && |errors| < |script|
    requires started >= begin && starts[|errors|] == started
    requires var a := script[|errors|];
             && Continues(a, started, deadline)
             && sleep == SleepAfter(policy, script, |errors|, started + a.took, deadline)
    ensures var a := script[|errors|];
            Underway(policy, script, begin, deadline, starts, errors + [a.end.message],
                     started + a.took + sleep + a.overslept)
    ensures Slept(policy, script, deadline, starts, |errors| + 1, Some(sleep))
  {
    SleepFits(policy, script, begin, deadline, starts, started + script[|errors|].took, sleep);
  }

  lemma JittersAppend<T>(script: seq<Attempt<T>>, k: nat)
    requires 0 < k <= |script|
    ensures Jitters(script[..k]) == Jitters(script[..k - 1]) + [script[k - 1].jitter]
  {
  }

  datatype Turn<T> = Return(result: Result<T>) | Retry(sleep: Duration)

  /** The attempt timer stops an attempt at the deadline; a completed one may still overrun it. */
  function EndOfAttempt<T>(a: Attempt<T>, now: real, deadline: real): real {
    if a.end.OutOfTime? && a.took < deadline - now then deadline else now + a.took
  }

  function AfterAttempt<T>(a: Attempt<T>, now: real, start: real, deadline: real, facts: Facts,
                           lastDelay: Option<Duration>,
                           delay: Duration, fatal: SourceKind, retryable: SourceKind): Turn<T>
    requires start <= now
  {
    match a.end
    case CancelledMeanwhile => Return(CancelledFailure(Cancelled))
    case OutOfTime => Return(TimedOut(now - start, facts, lastDelay, retryable))
    case Ready(value) => Return(Initialized(value))
    case Fatal(message) => Return(FatalFailure(message, fatal))
    case Retryable(_) =>
      if now >= deadline then Return(TimedOut(now - start, facts, lastDelay, retryable))
      else if a.sleepCancelled then Return(CancelledFailure(Cancelled))
      else Retry(Min(delay, deadline - now))
  }

  lemma TurnExplains<T>(a: Attempt<T>, now: real, start: real, deadline: real, lastDelay: Option<Duration>,
                        delay: Duration,
                        script: seq<Attempt<T>>, errors: seq<string>, fatal: SourceKind, retryable: SourceKind)
    requires start <= now && start <= deadline && (a.end.OutOfTime? ==> deadline <= now)
    requires if a.end.Retryable? then 0 < |errors| <= |script| && a == script[|errors| - 1]
             else |errors| < |script| && a == script[|errors|]
    requires AfterAttempt(a, now, start, deadline, FactsOf(errors), lastDelay, delay, fatal, retryable).Return?
    ensures Explains(AfterAttempt(a, now, start, deadline, FactsOf(errors), lastDelay, delay, fatal, retryable).result,
                     script, errors, fatal, retryable, deadline - start)
  {
    match a.end {
      case CancelledMeanwhile =>
      case OutOfTime =>
      case Ready(_) =>
      case Fatal(_) =>
      case Retryable(_) =>
    }
  }

  lemma TurnReports<T>(policy: RestartPolicy, script: seq<Attempt<T>>, starts: seq<real>, n: nat, start: real,
                       deadline: real, facts: Facts, lastDelay: Option<Duration>, delay: Duration, fatal: SourceKind,
                       retryable: SourceKind)
    requires |starts| == n + 1 <= |script| && Slept(policy, script, deadline, starts, n, lastDelay)
    requires start <= EndOfAttempt(script[n], starts[n], deadline)
    requires AfterAttempt(script[n], EndOfAttempt(script[n], starts[n], deadline), start, deadline, facts, lastDelay,
                          delay, fatal, retryable).Return?
    ensures var ended := EndOfAttempt(script[n], starts[n], deadline);
            var turn := AfterAttempt(script[n], ended, start, deadline, facts, lastDelay, delay, fatal, retryable);
            ReportsDelay(turn.result, policy, script, deadline, starts, if script[n].end.Retryable? then n + 1 else n)
  {
    hide DelayAfter, NextDelay;
    match script[n].end {
      case CancelledMeanwhile =>
      case OutOfTime =>
      case Ready(_) =>
      case Fatal(_) =>
      case Retryable(_) =>
    }
  }

  function TimedOut<T>(elapsed: Duration, facts: Facts, lastDelay: Option<Duration>, retryable: SourceKind): Result<T> {
    TimeoutFailure(facts.lastError, TimeoutSource(facts.lastError, retryable), facts.attempts, elapsed,
                   lastDelay, facts.recent)
  }

  /** If the next attempt starts now, it starts on schedule. */
  ghost predicate NextFits<T>(policy: RestartPolicy, script: seq<Attempt<T>>, begin: real, deadline: real,
                              starts: seq<real>, now: real) {
    && |starts| <= |script|
    && (starts != [] ==> Continues(script[|starts| - 1], starts[|starts| - 1], deadline))
    && now == NextStart(policy, script, begin, deadline, starts)
  }

  lemma ScheduleExtends<T>(policy: RestartPolicy, script: seq<Attempt<T>>, begin: real, deadline: real,
                           starts: seq<real>, now: real)
    requires Schedule(policy, script, begin, deadline, starts) && |starts| < |script|
    requires NextFits(policy, script, begin, deadline, starts, now) && now < deadline
    ensures Schedule(policy, script, begin, deadline, starts + [now])
  {
    var longer := starts + [now];
    forall k | 0 < k < |longer| ensures Follows(policy, script, deadline, longer, k) {
      if k < |starts| {
        assert Follows(policy, script, deadline, starts, k);
      }
    }
  }

  lemma SleepFits<T>(policy: RestartPolicy, script: seq<Attempt<T>>, begin: real, deadline: real, starts: seq<real>,
                     ended: real, sleep: real)
    requires 0 < |starts| <= |script|
    requires var a := script[|starts| - 1];
             && Continues(a, starts[|starts| - 1], deadline) && ended == starts[|starts| - 1] + a.took
             && sleep == SleepAfter(policy, script, |starts| - 1, ended, deadline)
    ensures NextFits(policy, script, begin, deadline, starts, ended + sleep + script[|starts| - 1].overslept)
  {
  }
}
