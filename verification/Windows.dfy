/**
 Sleep observations, their cumulative snapshots in milliseconds, and the
 windows that an adaptive scheduler computes from two snapshots.

 Durations are whole nanoseconds; the counters are unbounded.
 */
module Windows {
  import opened Wrappers

  const NANOS_PER_MILLI: nat := 1_000_000

  datatype Observation = Observation(completed: bool, requested: nat, elapsed: nat, drift: nat)

  function Millis(nanos: nat): nat { nanos / NANOS_PER_MILLI }

  function Greater(a: nat, b: nat): nat { if a >= b then a else b }

  // ----- What a list of observations amounts to

  function Completions(obs: seq<Observation>): nat {
    if obs == [] then 0 else Completions(obs[..|obs| - 1]) + (if obs[|obs| - 1].completed then 1 else 0)
  }

  function Interruptions(obs: seq<Observation>): nat {
    if obs == [] then 0 else Interruptions(obs[..|obs| - 1]) + (if obs[|obs| - 1].completed then 0 else 1)
  }

  function TotalRequested(obs: seq<Observation>): nat {
    if obs == [] then 0 else TotalRequested(obs[..|obs| - 1]) + obs[|obs| - 1].requested
  }

  function TotalElapsed(obs: seq<Observation>): nat {
    if obs == [] then 0 else TotalElapsed(obs[..|obs| - 1]) + obs[|obs| - 1].elapsed
  }

  /** Only completed sleeps have a drift. */
  function TotalDrift(obs: seq<Observation>): nat {
    if obs == [] then 0
    else TotalDrift(obs[..|obs| - 1]) + (if obs[|obs| - 1].completed then obs[|obs| - 1].drift else 0)
  }

  function MaxDrift(obs: seq<Observation>): nat {
    if obs == [] then 0
    else Greater(MaxDrift(obs[..|obs| - 1]), if obs[|obs| - 1].completed then obs[|obs| - 1].drift else 0)
  }

  function LastDrift(obs: seq<Observation>): nat {
    if obs == [] then 0 else if obs[|obs| - 1].completed then obs[|obs| - 1].drift else LastDrift(obs[..|obs| - 1])
  }

  /** The independent reading of `MaxDrift`. */
  lemma {:induction false} MaxDriftIsMaximum(obs: seq<Observation>)
    ensures forall i :: 0 <= i < |obs| && obs[i].completed ==> obs[i].drift <= MaxDrift(obs)
    ensures Completions(obs) > 0 ==> exists i :: 0 <= i < |obs| && obs[i].completed && obs[i].drift == MaxDrift(obs)
    ensures Completions(obs) == 0 ==> MaxDrift(obs) == 0
  {
    if obs == [] {
    } else {
      var front, last := obs[..|obs| - 1], obs[|obs| - 1];
      MaxDriftIsMaximum(front);
      if Completions(obs) > 0 {
        if last.completed && last.drift >= MaxDrift(front) {
          assert obs[|obs| - 1].drift == MaxDrift(obs);
        } else {
          var i :| 0 <= i < |front| && front[i].completed && front[i].drift == MaxDrift(front);
          assert obs[i] == front[i];
        }
      }
    }
  }

  lemma {:induction false} Splits(a: seq<Observation>, b: seq<Observation>)
    ensures Completions(a + b) == Completions(a) + Completions(b)
    ensures Interruptions(a + b) == Interruptions(a) + Interruptions(b)
    ensures TotalRequested(a + b) == TotalRequested(a) + TotalRequested(b)
    ensures TotalElapsed(a + b) == TotalElapsed(a) + TotalElapsed(b)
    ensures TotalDrift(a + b) == TotalDrift(a) + TotalDrift(b)
    ensures MaxDrift(a + b) == Greater(MaxDrift(a), MaxDrift(b))
    ensures LastDrift(a + b) == if Completions(b) > 0 then LastDrift(b) else LastDrift(a)
  {
    if b == [] {
      assert a + b == a;
    } else {
      var front := b[..|b| - 1];
      Splits(a, front);
      assert (a + b)[..|a + b| - 1] == a + front;
    }
  }

  /** The statistics of a single observation; with `Splits` this fixes them for every history. */
  lemma OfOne(o: Observation)
    ensures Completions([o]) == (if o.completed then 1 else 0) && Interruptions([o]) == (if o.completed then 0 else 1)
    ensures TotalRequested([o]) == o.requested && TotalElapsed([o]) == o.elapsed
    ensures TotalDrift([o]) == MaxDrift([o]) == LastDrift([o]) == if o.completed then o.drift else 0
  {
    assert [o][..0] == [];
  }

  // ----- The statistics cell and its snapshot

  datatype ObservationSnapshot = ObservationSnapshot(
    completed: nat,
    interrupted: nat,
    requestedMs: nat,
    elapsedMs: nat,
    driftMs: nat,
    maxDriftMs: nat,
    lastDriftMs: nat,
    avgDriftMs: nat)

  /** A quotient that is 0 when there is nothing to divide by. */
  function DivOrZero(a: nat, n: nat): nat { if n == 0 then 0 else a / n }

  function SnapshotOf(obs: seq<Observation>): ObservationSnapshot {
    ObservationSnapshot(
      Completions(obs), Interruptions(obs), Millis(TotalRequested(obs)), Millis(TotalElapsed(obs)),
      Millis(TotalDrift(obs)), Millis(MaxDrift(obs)), Millis(LastDrift(obs)),
      Millis(DivOrZero(TotalDrift(obs), Completions(obs))))
  }

  class ObservationStats {
    var completed: nat
    var interrupted: nat
    var totalRequested: nat
    var totalElapsed: nat
    var totalDrift: nat
    var maxDrift: nat
    var lastDrift: nat
    ghost var history: seq<Observation>

    ghost predicate Valid()
      reads this
    {
      && completed == Completions(history) && interrupted == Interruptions(history)
      && totalRequested == TotalRequested(history) && totalElapsed == TotalElapsed(history)
      && totalDrift == TotalDrift(history) && maxDrift == MaxDrift(history) && lastDrift == LastDrift(history)
    }

    constructor ()
      ensures Valid() && history == []
    {
      completed, interrupted, totalRequested, totalElapsed, totalDrift, maxDrift, lastDrift := 0, 0, 0, 0, 0, 0, 0;
      history := [];
    }

    method Record(o: Observation)
      requires Valid()
      modifies this
      ensures Valid() && history == old(history) + [o]
    {
      totalRequested := totalRequested + o.requested;
      totalElapsed := totalElapsed + o.elapsed;
      if o.completed {
        completed := completed + 1;
        totalDrift := totalDrift + o.drift;
        lastDrift := o.drift;
        if o.drift > maxDrift {
          maxDrift := o.drift;
        }
      } else {
        interrupted := interrupted + 1;
      }
      history := history + [o];
      assert history[..|history| - 1] == old(history);
    }

    method Snapshot() returns (s: ObservationSnapshot)
      requires Valid()
      ensures s == SnapshotOf(history)
    {
      s := ObservationSnapshot(completed, interrupted, Millis(totalRequested), Millis(totalElapsed), Millis(totalDrift),
                               Millis(maxDrift), Millis(lastDrift), Millis(DivOrZero(totalDrift, completed)));
    }
  }

  // ----- Windows between snapshots

  function Delta(previous: Option<nat>, current: nat): nat {
    if previous.None? then current else if current >= previous.value then current - previous.value else 0
  }

  datatype ObservationWindow = ObservationWindow(
    completed: nat,
    interrupted: nat,
    requestedMs: nat,
    elapsedMs: nat,
    driftMs: nat,
    provenMaxDriftMs: Option<nat>,
    lastDriftMs: nat,
    avgDriftMs: nat)

  datatype Field = Completed | Interrupted | RequestedMs | ElapsedMs | DriftMs

  /** A cumulative counter of a snapshot. */
  function ReadStats(s: ObservationSnapshot, f: Field): nat {
    match f
    case Completed => s.completed
    case Interrupted => s.interrupted
    case RequestedMs => s.requestedMs
    case ElapsedMs => s.elapsedMs
    case DriftMs => s.driftMs
  }

  function FieldDelta(previous: Option<ObservationSnapshot>, current: ObservationSnapshot, f: Field): nat {
    Delta(if previous.None? then None else Some(ReadStats(previous.value, f)), ReadStats(current, f))
  }

  function WindowOf(previous: Option<ObservationSnapshot>, current: ObservationSnapshot): ObservationWindow {
    var completed := FieldDelta(previous, current, Completed);
    var driftMs := FieldDelta(previous, current, DriftMs);
    ObservationWindow(
      completed,
      FieldDelta(previous, current, Interrupted),
      FieldDelta(previous, current, RequestedMs),
      FieldDelta(previous, current, ElapsedMs),
      driftMs,
      if completed > 0 && (previous.None? || current.maxDriftMs > previous.value.maxDriftMs)
      then Some(current.maxDriftMs) else None,
      if completed > 0 then current.lastDriftMs else 0,
      DivOrZero(driftMs, completed))
  }

  /** The window over a history `before + during`, its first part being the baseline, if there is one. */
  function Between(baseline: bool, before: seq<Observation>, during: seq<Observation>): ObservationWindow {
    WindowOf(if baseline then Some(SnapshotOf(before)) else None, SnapshotOf(before + during))
  }

  lemma MillisMonotone(a: nat, b: nat)
    requires a <= b
    ensures Millis(a) <= Millis(b)
  {
  }

  /**
   The proven maximum is honest, and absent exactly when nothing completed in
   the window or the baseline already showed at least as many milliseconds.
   */
  lemma ProvenMaxHonest(baseline: bool, before: seq<Observation>, during: seq<Observation>)
    requires !baseline ==> before == []
    ensures var proven := Between(baseline, before, during).provenMaxDriftMs;
            && (proven.Some? ==> Completions(during) > 0 && proven.value == Millis(MaxDrift(during)))
            && (proven.Some? <==>
                  Completions(during) > 0 && (!baseline || Millis(MaxDrift(during)) > Millis(MaxDrift(before))))
  {
    Splits(before, during);
    MillisMonotone(MaxDrift(before), Greater(MaxDrift(before), MaxDrift(during)));
  }

  /** Counts and the last drift of a window are those of its own observations. */
  lemma WindowCounts(baseline: bool, before: seq<Observation>, during: seq<Observation>)
    requires !baseline ==> before == []
    ensures var w := Between(baseline, before, during);
            && w.completed == Completions(during) && w.interrupted == Interruptions(during)
            && w.lastDriftMs == Millis(LastDrift(during))
  {
    Splits(before, during);
    LastDriftNeedsCompletion(during);
  }

  /** A window's total of milliseconds is that of its own observations, or one more when the floors carry. */
  lemma WindowTotals(baseline: bool, before: seq<Observation>, during: seq<Observation>)
    requires !baseline ==> before == []
    ensures var w := Between(baseline, before, during);
            && w.requestedMs == Added(TotalRequested(before), TotalRequested(during))
            && w.elapsedMs == Added(TotalElapsed(before), TotalElapsed(during))
            && w.driftMs == Added(TotalDrift(before), TotalDrift(during))
  {
    assert !baseline ==> TotalRequested(before) == TotalElapsed(before) == TotalDrift(before) == 0;
    hide Millis, Carries, Added, Delta, DivOrZero;
    hide Completions, Interruptions, TotalRequested, TotalElapsed, TotalDrift, MaxDrift, LastDrift;
    Splits(before, during);
    DeltaOfMillis(baseline, TotalRequested(before), TotalRequested(during));
    DeltaOfMillis(baseline, TotalElapsed(before), TotalElapsed(during));
    DeltaOfMillis(baseline, TotalDrift(before), TotalDrift(during));
  }

  lemma DeltaOfMillis(baseline: bool, before: nat, during: nat)
    requires !baseline ==> before == 0
    ensures Delta(if baseline then Some(Millis(before)) else None, Millis(before + during)) == Added(before, during)
  {
    hide Millis, Carries;
    MillisAdd(before, during);
    CarriesNothing(during);
  }

  /** The milliseconds of the second amount, with what it carries over from the first. */
  function Added(before: nat, during: nat): nat {
    Millis(during) + (if Carries(before, during) then 1 else 0)
  }

  lemma CarriesNothing(during: nat)
    ensures !Carries(0, during)
  {
  }

  lemma {:induction false} LastDriftNeedsCompletion(obs: seq<Observation>)
    ensures Completions(obs) == 0 ==> LastDrift(obs) == 0
  {
    if obs == [] {
    } else {
      LastDriftNeedsCompletion(obs[..|obs| - 1]);
    }
  }

  // ----- Averages across units

  lemma DivUnique(x: nat, n: nat, q: nat)
    requires n > 0 && q * n <= x < q * n + n
    ensures x / n == q
  {
    DivBetween(x, n, q, q + 1);
  }

  /** Flooring to milliseconds and flooring the quotient commute. */
  lemma FloorsCommute(x: nat, n: nat, m: nat)
    requires n > 0 && m > 0
    ensures (x / m) / n == (x / n) / m
  {
    var p := x / m;
    var q := p / n;
    Sandwich(x, n, m, p, q);
    DivBetween(x, n, q * m, q * m + m);
    DivUnique(x / n, m, q);
  }

  lemma Sandwich(x: nat, n: nat, m: nat, p: nat, q: nat)
    requires p * m <= x < p * m + m && q * n <= p < q * n + n
    ensures (q * m) * n <= x < (q * m + m) * n
  {
    var a, b := q * n, q * n + n;
    MulMono(a, p, m);
    MulMono(p + 1, b, m);
    Regroup(q, n, m);
  }

  lemma MulMono(a: nat, b: nat, m: nat)
    requires a <= b
    ensures a * m <= b * m
  {
  }

  lemma Regroup(q: nat, n: nat, m: nat)
    ensures (q * n) * m == (q * m) * n
    ensures (q * n + n) * m == (q * m + m) * n
  {
    assert (q * n) * m == q * (n * m) == q * (m * n) == (q * m) * n;
    assert (q * n + n) * m == (q * n) * m + n * m;
    assert (q * m + m) * n == (q * m) * n + m * n;
  }

  lemma DivBetween(x: nat, n: nat, low: nat, high: nat)
    requires n > 0 && low * n <= x < high * n
    ensures low <= x / n < high
  {
    var r := x / n;
    assert r * n <= x < r * n + n;
    if r < low {
      MulMono(r + 1, low, n);
    }
    if high <= r {
      MulMono(high, r, n);
    }
  }

  lemma SuccDiv(y: nat, n: nat)
    requires n > 0
    ensures (y + 1) / n == y / n + (if (y + 1) % n == 0 then 1 else 0)
  {
    var q, r := y / n, y % n;
    assert y == q * n + r;
    if r + 1 == n {
      DivUnique(y + 1, n, q + 1);
      assert (y + 1) % n == 0;
    } else {
      DivUnique(y + 1, n, q);
      assert (y + 1) % n == r + 1;
    }
  }

  /** Without a baseline the window's average is the snapshot's own, computed from nanoseconds. */
  lemma AverageWithoutBaseline(during: seq<Observation>)
    requires Completions(during) > 0
    ensures Between(false, [], during).avgDriftMs == SnapshotOf(during).avgDriftMs
  {
    assert [] + during == during;
    FloorsCommute(TotalDrift(during), Completions(during), NANOS_PER_MILLI);
  }

  /** The milliseconds already begun by the baseline complete one more inside the window. */
  predicate Carries(before: nat, during: nat) {
    before % NANOS_PER_MILLI + during % NANOS_PER_MILLI >= NANOS_PER_MILLI
  }

  lemma MillisAdd(before: nat, during: nat)
    ensures Millis(before + during) == Millis(before) + Millis(during) + (if Carries(before, during) then 1 else 0)
  {
  }

  /**
   With a baseline the window's average is the exact floored average of its own
   observations, or one millisecond more; the latter exactly when the floors
   carry and the carried total is a multiple of the number of samples.
   */
  lemma AverageWithBaseline(before: seq<Observation>, during: seq<Observation>)
    requires Completions(during) > 0
    ensures var n := Completions(during);
            var exact := Millis(TotalDrift(during) / n);
            var over := Carries(TotalDrift(before), TotalDrift(during)) && (Millis(TotalDrift(during)) + 1) % n == 0;
            Between(true, before, during).avgDriftMs == exact + (if over then 1 else 0)
  {
    hide Between, Millis, Carries, TotalDrift, Completions;
    var carry := Carries(TotalDrift(before), TotalDrift(during));
    WindowAverage(before, during, carry);
    AverageCarried(TotalDrift(during), Completions(during), carry);
  }

  lemma WindowAverage(before: seq<Observation>, during: seq<Observation>, carry: bool)
    requires Completions(during) > 0 && carry == Carries(TotalDrift(before), TotalDrift(during))
    ensures Between(true, before, during).avgDriftMs ==
            (Millis(TotalDrift(during)) + (if carry then 1 else 0)) / Completions(during)
  {
    hide Millis, Carries, TotalDrift, Completions, MaxDrift, LastDrift;
    Splits(before, during);
    MillisAdd(TotalDrift(before), TotalDrift(during));
    var w := Between(true, before, during);
    assert w.completed == Completions(during);
    assert w.driftMs == Millis(TotalDrift(during)) + (if carry then 1 else 0);
    assert w.avgDriftMs == DivOrZero(w.driftMs, w.completed);
  }

  lemma AverageCarried(total: nat, n: nat, carry: bool)
    requires n > 0
    ensures (Millis(total) + (if carry then 1 else 0)) / n ==
              Millis(total / n) + (if carry && (Millis(total) + 1) % n == 0 then 1 else 0)
  {
    FloorsCommute(total, n, NANOS_PER_MILLI);
    SuccDiv(Millis(total), n);
  }

  /** One nanosecond of drift in the window can read as a whole millisecond. */
  lemma AverageCanExceed() returns (before: seq<Observation>, during: seq<Observation>)
    ensures Completions(during) == 1 && TotalDrift(during) == 1
    ensures Between(true, before, during).avgDriftMs == 1
  {
    before, during := [Observation(true, 0, 0, NANOS_PER_MILLI - 1)], [Observation(true, 0, 0, 1)];
    AverageWithBaseline(before, during);
  }
}
