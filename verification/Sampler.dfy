/**
 The diagnostics sampler: windows between successive snapshots of all services,
 generations and lanes.  A snapshot is taken as one value; the three lists of the
 program, each with distinct keys, are one map here.
 */
module Sampler {
  import opened Wrappers
  import opened Diagnostics
  import opened Windows

  datatype Key = ServiceKey(id: nat) | GenerationKey(id: nat, number: nat) | LaneKey(lane: Lane)

  datatype Aggregate = Aggregate(
    serviceSleep: ObservationSnapshot,
    runtimeProbe: ObservationSnapshot,
    lifecycle: Counts,
    lastPolicyDelayMs: nat,
    lastRestartDelayMs: nat)

  type Snapshot = map<Key, Aggregate>

  /** Counters absent from a map stand at zero. */
  datatype AggregateWindow = AggregateWindow(
    serviceSleep: ObservationWindow,
    runtimeProbe: ObservationWindow,
    lifecycle: Counts,
    lastPolicyDelayMs: nat,
    lastRestartDelayMs: nat)

  datatype Window = Window(hasBaseline: bool, parts: map<Key, AggregateWindow>)

  function LifecycleWindow(previous: Option<Counts>, current: Counts): Counts {
    map k | k in current :: Delta(if previous.None? then None else Some(Get(previous.value, k)), current[k])
  }

  function AggregateWindowOf(previous: Option<Aggregate>, current: Aggregate): AggregateWindow {
    AggregateWindow(
      WindowOf(if previous.None? then None else Some(previous.value.serviceSleep), current.serviceSleep),
      WindowOf(if previous.None? then None else Some(previous.value.runtimeProbe), current.runtimeProbe),
      LifecycleWindow(if previous.None? then None else Some(previous.value.lifecycle), current.lifecycle),
      current.lastPolicyDelayMs,
      current.lastRestartDelayMs)
  }

  /** What the previous snapshot, if there was one, knew of a key. */
  function Lookup(previous: Option<Snapshot>, key: Key): Option<Aggregate> {
    if previous.Some? && key in previous.value then Some(previous.value[key]) else None
  }

  function FromSnapshots(previous: Option<Snapshot>, current: Snapshot): Window {
    Window(previous.Some?, map key | key in current :: AggregateWindowOf(Lookup(previous, key), current[key]))
  }

  /** The windows a sampler produces for snapshots in order. */
  ghost predicate Sampled(snapshots: seq<Snapshot>, windows: seq<Window>) {
    && |windows| == |snapshots|
    && forall i :: 0 <= i < |windows| ==> windows[i] == FromSnapshots(Before(snapshots, i), snapshots[i])
  }

  function Before(snapshots: seq<Snapshot>, i: nat): Option<Snapshot>
    requires i <= |snapshots|
  {
    if i == 0 then None else Some(snapshots[i - 1])
  }

  class DiagnosticsSampler {
    var previous: Option<Snapshot>
    ghost var seen: seq<Snapshot>
    ghost var windows: seq<Window>

    ghost predicate Valid()
      reads this
    {
      previous == Before(seen, |seen|) && Sampled(seen, windows)
    }

    constructor ()
      ensures Valid() && seen == []
    {
      previous, seen, windows := None, [], [];
    }

    method Sample(current: Snapshot) returns (w: Window)
      requires Valid()
      modifies this
      ensures Valid() && seen == old(seen) + [current] && windows == old(windows) + [w]
    {
      hide FromSnapshots;
      w := FromSnapshots(previous, current);
      previous := Some(current);
      seen, windows := seen + [current], windows + [w];
    }
  }

  // ----- Telescoping

  /** A cumulative counter of an aggregate. */
  datatype Cumulative = OfSleep(f: Field) | OfProbe(f: Field) | OfLifecycle(k: Counter)

  function ReadStatsWindow(w: ObservationWindow, f: Field): nat {
    match f
    case Completed => w.completed
    case Interrupted => w.interrupted
    case RequestedMs => w.requestedMs
    case ElapsedMs => w.elapsedMs
    case DriftMs => w.driftMs
  }

  function Read(a: Aggregate, c: Cumulative): nat {
    match c
    case OfSleep(f) => ReadStats(a.serviceSleep, f)
    case OfProbe(f) => ReadStats(a.runtimeProbe, f)
    case OfLifecycle(k) => Get(a.lifecycle, k)
  }

  function ReadWindow(w: AggregateWindow, c: Cumulative): nat {
    match c
    case OfSleep(f) => ReadStatsWindow(w.serviceSleep, f)
    case OfProbe(f) => ReadStatsWindow(w.runtimeProbe, f)
    case OfLifecycle(k) => Get(w.lifecycle, k)
  }

  /** What the windows together say about one counter of one key; a window without the key says nothing. */
  function SumOf(windows: seq<Window>, key: Key, c: Cumulative): nat {
    if windows == [] then 0
    else
      var last := windows[|windows| - 1];
      SumOf(windows[..|windows| - 1], key, c) + (if key in last.parts then ReadWindow(last.parts[key], c) else 0)
  }

  /** Once a key has appeared it stays, and its counter does not go back. */
  ghost predicate Accumulates(snapshots: seq<Snapshot>, key: Key, c: Cumulative) {
    forall i :: 0 < i < |snapshots| && key in snapshots[i - 1] ==>
                  key in snapshots[i] && Read(snapshots[i - 1][key], c) <= Read(snapshots[i][key], c)
  }

  lemma WindowIsDelta(previous: Option<Aggregate>, current: Aggregate, c: Cumulative)
    ensures ReadWindow(AggregateWindowOf(previous, current), c) ==
              Delta(if previous.None? then None else Some(Read(previous.value, c)), Read(current, c))
  {
    match c {
      case OfSleep(f) =>
        match f { case Completed => case Interrupted => case RequestedMs => case ElapsedMs => case DriftMs => }
      case OfProbe(f) =>
        match f { case Completed => case Interrupted => case RequestedMs => case ElapsedMs => case DriftMs => }
      case OfLifecycle(k) =>
    }
  }

  lemma WindowPart(previous: Option<Snapshot>, current: Snapshot, key: Key)
    ensures var parts := FromSnapshots(previous, current).parts;
            && (key in parts <==> key in current)
            && (key in current ==> parts[key] == AggregateWindowOf(Lookup(previous, key), current[key]))
            && (key in current ==>
                  && parts[key].lastPolicyDelayMs == current[key].lastPolicyDelayMs
                  && parts[key].lastRestartDelayMs == current[key].lastRestartDelayMs)
    ensures FromSnapshots(previous, current).hasBaseline <==> previous.Some?
  {
  }

  /** A counter that went back counts as unchanged. */
  lemma DeltaSaturates(previous: nat, current: nat)
    ensures Delta(None, current) == current
    ensures previous <= current ==> previous + Delta(Some(previous), current) == current
    ensures current <= previous ==> Delta(Some(previous), current) == 0
  {
  }

  /** The windows of any run of samples add up to the latest snapshot's counter: nothing is lost or told twice. */
  lemma {:induction false} Telescopes(snapshots: seq<Snapshot>, windows: seq<Window>, key: Key, c: Cumulative, n: nat)
    requires Sampled(snapshots, windows) && Accumulates(snapshots, key, c) && 0 < n <= |windows|
    ensures SumOf(windows[..n], key, c) == if key in snapshots[n - 1] then Read(snapshots[n - 1][key], c) else 0
  {
    hide FromSnapshots, AggregateWindowOf, Read, ReadWindow;
    assert windows[..n][..n - 1] == windows[..n - 1];
    WindowPart(Before(snapshots, n - 1), snapshots[n - 1], key);
    if key in snapshots[n - 1] {
      WindowIsDelta(Lookup(Before(snapshots, n - 1), key), snapshots[n - 1][key], c);
    }
    if n > 1 {
      Telescopes(snapshots, windows, key, c, n - 1);
    }
  }

  // ----- Snapshots of growing histories

  /** Which observations of an aggregate are meant. */
  datatype Source = ServiceSleep | RuntimeProbe

  function StatsOf(a: Aggregate, source: Source): ObservationSnapshot {
    match source
    case ServiceSleep => a.serviceSleep
    case RuntimeProbe => a.runtimeProbe
  }

  function StatsWindow(w: AggregateWindow, source: Source): ObservationWindow {
    match source
    case ServiceSleep => w.serviceSleep
    case RuntimeProbe => w.runtimeProbe
  }

  function CumulativeOf(source: Source, f: Field): Cumulative {
    match source
    case ServiceSleep => OfSleep(f)
    case RuntimeProbe => OfProbe(f)
  }

  /** Each snapshot of the key's statistics is taken of a longer prefix of one history, empty before the key appears. */
  ghost predicate TakenOf(snapshots: seq<Snapshot>, key: Key, source: Source, history: seq<Observation>,
                          cuts: seq<nat>) {
    && |cuts| == |snapshots|
    && (forall i :: 0 <= i < |cuts| ==> cuts[i] <= |history|)
    && (forall i :: 0 < i < |cuts| ==> cuts[i - 1] <= cuts[i])
    && (forall i :: 0 <= i < |cuts| && key in snapshots[i] ==>
          StatsOf(snapshots[i][key], source) == SnapshotOf(history[..cuts[i]]))
    && (forall i :: 0 <= i < |cuts| && key !in snapshots[i] ==> cuts[i] == 0)
  }

  /** Snapshots of a growing history satisfy what telescoping asks for, rounding to milliseconds included. */
  lemma HistoriesAccumulate(snapshots: seq<Snapshot>, key: Key, source: Source, history: seq<Observation>,
                            cuts: seq<nat>, f: Field)
    requires TakenOf(snapshots, key, source, history, cuts)
    requires forall i :: 0 < i < |snapshots| && key in snapshots[i - 1] ==> key in snapshots[i]
    ensures Accumulates(snapshots, key, CumulativeOf(source, f))
  {
    hide SnapshotOf, ReadStats;
    forall i | 0 < i < |snapshots| && key in snapshots[i - 1]
      ensures Read(snapshots[i - 1][key], CumulativeOf(source, f)) <= Read(snapshots[i][key], CumulativeOf(source, f))
    {
      var before, during := history[..cuts[i - 1]], history[cuts[i - 1]..cuts[i]];
      assert history[..cuts[i]] == before + during;
      StatsGrow(before, during, f);
    }
  }

  lemma StatsGrow(before: seq<Observation>, during: seq<Observation>, f: Field)
    ensures ReadStats(SnapshotOf(before), f) <= ReadStats(SnapshotOf(before + during), f)
  {
    Splits(before, during);
    MillisMonotone(TotalRequested(before), TotalRequested(before + during));
    MillisMonotone(TotalElapsed(before), TotalElapsed(before + during));
    MillisMonotone(TotalDrift(before), TotalDrift(before + during));
    match f { case Completed => case Interrupted => case RequestedMs => case ElapsedMs => case DriftMs => }
  }

  /** The observations made since the previous sample. */
  function During(history: seq<Observation>, cuts: seq<nat>, i: nat): seq<Observation>
    requires i < |cuts| && cuts[i] <= |history| && (i > 0 ==> cuts[i - 1] <= cuts[i])
  {
    history[if i == 0 then 0 else cuts[i - 1]..cuts[i]]
  }

  /**
   In every window of every run, for sleeps and for runtime probes, the counts,
   the last drift and the proven maximum are those of the window's own
   observations.
   */
  lemma WindowsHonest(snapshots: seq<Snapshot>, windows: seq<Window>, key: Key, source: Source,
                      history: seq<Observation>, cuts: seq<nat>, i: nat)
    requires Sampled(snapshots, windows) && TakenOf(snapshots, key, source, history, cuts)
    requires i < |windows| && key in snapshots[i]
    ensures key in windows[i].parts
    ensures var w, during := StatsWindow(windows[i].parts[key], source), During(history, cuts, i);
            && w.completed == Completions(during) && w.interrupted == Interruptions(during)
            && w.lastDriftMs == Millis(LastDrift(during))
            && (w.provenMaxDriftMs.Some? ==>
                  Completions(during) > 0 && w.provenMaxDriftMs.value == Millis(MaxDrift(during)))
  {
    hide SnapshotOf, WindowOf;
    var during := During(history, cuts, i);
    var baseline := Lookup(Before(snapshots, i), key).Some?;
    var before := if i == 0 || !baseline then [] else history[..cuts[i - 1]];
    assert history[..cuts[i]] == before + during;
    WindowPart(Before(snapshots, i), snapshots[i], key);
    assert StatsWindow(windows[i].parts[key], source) == Between(baseline, before, during);
    ProvenMaxHonest(baseline, before, during);
    WindowCounts(baseline, before, during);
  }
}
