/**
 Any number of `record` calls racing on one set of observation statistics: each
 adds to its counters one after the other, stores the last drift, and then joins
 the race for the maximum.
 */
module ObservationRace {
  import opened Windows
  import UpdateMax

  datatype Counter = Requested | Elapsed | Completions | Interruptions | Drift

  /** The counters a record adds to, in program order. */
  function Adds(o: Observation): seq<Counter> {
    [Requested, Elapsed] + (if o.completed then [Completions, Drift] else [Interruptions])
  }

  function Amount(o: Observation, k: Counter): nat {
    match k
    case Requested => o.requested
    case Elapsed => o.elapsed
    case Completions => if o.completed then 1 else 0
    case Interruptions => if o.completed then 0 else 1
    case Drift => if o.completed then o.drift else 0
  }

  datatype Cells = Cells(requested: nat, elapsed: nat, completions: nat, interruptions: nat, drift: nat)

  function Get(cells: Cells, k: Counter): nat {
    match k
    case Requested => cells.requested
    case Elapsed => cells.elapsed
    case Completions => cells.completions
    case Interruptions => cells.interruptions
    case Drift => cells.drift
  }

  function Plus(cells: Cells, k: Counter, n: nat): Cells {
    match k
    case Requested => cells.(requested := cells.requested + n)
    case Elapsed => cells.(elapsed := cells.elapsed + n)
    case Completions => cells.(completions := cells.completions + n)
    case Interruptions => cells.(interruptions := cells.interruptions + n)
    case Drift => cells.(drift := cells.drift + n)
  }

  /** `added[c]` counts the additions call c has made, `stored[c]` says whether it has stored its drift. */
  datatype State = State(cells: Cells, last: nat, max: UpdateMax.State, added: seq<nat>, stored: seq<bool>)

  datatype Action = Add(c: nat) | Store(c: nat) | Race(a: UpdateMax.Action)

  predicate Shaped(obs: seq<Observation>, s: State) {
    && |s.added| == |s.stored| == |s.max.calls| == |obs|
    && (forall c :: 0 <= c < |obs| ==> s.added[c] <= |Adds(obs[c])|)
    && (forall c :: 0 <= c < |obs| ==> s.max.calls[c].value == obs[c].drift)
    && (forall c :: 0 <= c < |obs| && !obs[c].completed ==> s.max.calls[c].Fresh?)
  }

  ghost predicate Act(obs: seq<Observation>, s: State, t: Action, s': State) {
    match t
    case Add(c) =>
      && c < |obs| && c < |s.added| && s.added[c] < |Adds(obs[c])|
      && var k := Adds(obs[c])[s.added[c]];
         s' == s.(cells := Plus(s.cells, k, Amount(obs[c], k)), added := s.added[c := s.added[c] + 1])
    case Store(c) =>
      && c < |obs| && c < |s.added| && c < |s.stored|
      && obs[c].completed && s.added[c] == |Adds(obs[c])| && !s.stored[c]
      && s' == s.(last := obs[c].drift, stored := s.stored[c := true])
    case Race(a) =>
      && a.c < |obs| && a.c < |s.stored| && obs[a.c].completed && s.stored[a.c]
      && UpdateMax.Act(s.max, a, s'.max) && s' == s.(max := s'.max)
  }

  ghost predicate Start(obs: seq<Observation>, s: State) {
    && Shaped(obs, s) && s.cells == Cells(0, 0, 0, 0, 0) && s.last == 0 && s.max.cell == 0
    && forall c :: 0 <= c < |obs| ==> s.added[c] == 0 && !s.stored[c] && s.max.calls[c].Fresh?
  }

  ghost predicate Run(obs: seq<Observation>, states: seq<State>, actions: seq<Action>) {
    && |states| == |actions| + 1 && Start(obs, states[0])
    && forall i :: 0 <= i < |actions| ==> Act(obs, states[i], actions[i], states[i + 1])
  }

  // ----- Totals

  function Total(obs: seq<Observation>, k: Counter): nat {
    if obs == [] then 0 else Total(obs[..|obs| - 1], k) + Amount(obs[|obs| - 1], k)
  }

  /** What a call has still to add to a counter. */
  function Rest(o: Observation, added: nat, k: Counter): nat
    requires added <= |Adds(o)|
  {
    if k in Adds(o)[added..] then Amount(o, k) else 0
  }

  predicate Counted(obs: seq<Observation>, added: seq<nat>) {
    |added| == |obs| && forall c :: 0 <= c < |obs| ==> added[c] <= |Adds(obs[c])|
  }

  function Owed(obs: seq<Observation>, added: seq<nat>, k: Counter): nat
    requires Counted(obs, added)
  {
    if obs == [] then 0
    else
      var n := |obs| - 1;
      Owed(obs[..n], added[..n], k) + Rest(obs[n], added[n], k)
  }

  lemma {:induction false} OwedUpdate(obs: seq<Observation>, added: seq<nat>, c: nat, m: nat, k: Counter)
    requires Counted(obs, added) && c < |obs| && m <= |Adds(obs[c])|
    ensures Counted(obs, added[c := m])
    ensures Owed(obs, added[c := m], k) == Owed(obs, added, k) + Rest(obs[c], m, k) - Rest(obs[c], added[c], k)
  {
    hide Rest, Adds;
    var n := |obs| - 1;
    if c == n {
      assert added[c := m][..n] == added[..n];
    } else {
      OwedUpdate(obs[..n], added[..n], c, m, k);
      assert added[c := m][..n] == added[..n][c := m];
    }
  }

  lemma {:induction false} AllOwed(obs: seq<Observation>, added: seq<nat>, k: Counter)
    requires Counted(obs, added) && forall c :: 0 <= c < |obs| ==> added[c] == 0
    ensures Owed(obs, added, k) == Total(obs, k)
  {
    if obs == [] {
    } else {
      var n := |obs| - 1;
      AllOwed(obs[..n], added[..n], k);
      WholeRest(obs[n], k);
    }
  }

  lemma WholeRest(o: Observation, k: Counter)
    ensures Rest(o, 0, k) == Amount(o, k)
  {
    assert Adds(o)[0..] == Adds(o);
    assert Adds(o)[0] == Requested && Adds(o)[1] == Elapsed;
    if o.completed {
      assert Adds(o)[2] == Completions && Adds(o)[3] == Drift;
    } else {
      assert Adds(o)[2] == Interruptions;
    }
  }

  lemma {:induction false} NothingOwed(obs: seq<Observation>, added: seq<nat>, k: Counter)
    requires Counted(obs, added) && forall c :: 0 <= c < |obs| ==> added[c] == |Adds(obs[c])|
    ensures Owed(obs, added, k) == 0
  {
    if obs == [] {
    } else {
      var n := |obs| - 1;
      NothingOwed(obs[..n], added[..n], k);
    }
  }

  /** One addition pays exactly what it owed. */
  lemma RestStep(o: Observation, m: nat, k: Counter)
    requires m < |Adds(o)|
    ensures Rest(o, m, k) == Rest(o, m + 1, k) + (if Adds(o)[m] == k then Amount(o, k) else 0)
  {
    var adds := Adds(o);
    assert adds[m..] == [adds[m]] + adds[m + 1..];
    assert forall i, j :: 0 <= i < j < |adds| ==> adds[i] != adds[j];
  }

  // ----- Every run

  ghost predicate Balanced(obs: seq<Observation>, s: State, k: Counter)
    requires Counted(obs, s.added)
  {
    Get(s.cells, k) + Owed(obs, s.added, k) == Total(obs, k)
  }

  ghost predicate Inv(obs: seq<Observation>, s: State) {
    && Shaped(obs, s) && Counted(obs, s.added) && UpdateMax.Inv(s.max, 0)
    && (forall k :: Balanced(obs, s, k))
    && (forall c :: 0 <= c < |obs| && s.stored[c] ==> obs[c].completed)
    && (forall c :: 0 <= c < |obs| && !s.max.calls[c].Fresh? ==> s.stored[c])
    && LastOk(obs, s)
  }

  /** The last drift is that of a call that has stored its own, or still 0 if none has. */
  ghost predicate LastOk(obs: seq<Observation>, s: State)
    requires |s.stored| == |obs|
  {
    || (exists c :: 0 <= c < |obs| && s.stored[c] && obs[c].drift == s.last)
    || (s.last == 0 && forall c :: 0 <= c < |obs| ==> !s.stored[c])
  }

  lemma AddKeepsInv(obs: seq<Observation>, s: State, c: nat, s': State)
    requires Inv(obs, s) && Act(obs, s, Add(c), s')
    ensures Inv(obs, s')
  {
    hide Owed, Total, Rest, Amount, UpdateMax.Inv;
    forall k ensures Counted(obs, s'.added) && Balanced(obs, s', k) {
      assert Balanced(obs, s, k);
      OwedUpdate(obs, s.added, c, s.added[c] + 1, k);
      RestStep(obs[c], s.added[c], k);
    }
  }

  lemma RaceKeepsInv(obs: seq<Observation>, s: State, a: UpdateMax.Action, s': State)
    requires Inv(obs, s) && Act(obs, s, Race(a), s')
    ensures Inv(obs, s')
  {
    UpdateMax.ActKeepsInv(s.max, a, s'.max, 0);
    forall k ensures Balanced(obs, s', k) {
      assert Balanced(obs, s, k);
    }
  }

  lemma StoreKeepsInv(obs: seq<Observation>, s: State, c: nat, s': State)
    requires Inv(obs, s) && Act(obs, s, Store(c), s')
    ensures Inv(obs, s')
  {
    forall k ensures Balanced(obs, s', k) {
      assert Balanced(obs, s, k);
    }
    assert s'.stored[c] && obs[c].drift == s'.last;
  }

  lemma {:induction false} RunKeepsInv(obs: seq<Observation>, states: seq<State>, actions: seq<Action>, i: nat)
    requires Run(obs, states, actions) && i < |states|
    ensures Inv(obs, states[i])
  {
    if i == 0 {
      forall k ensures Balanced(obs, states[0], k) {
        AllOwed(obs, states[0].added, k);
      }
    } else {
      hide Inv;
      RunKeepsInv(obs, states, actions, i - 1);
      var s, s' := states[i - 1], states[i];
      assert Act(obs, s, actions[i - 1], s');
      match actions[i - 1] {
        case Add(c) => AddKeepsInv(obs, s, c, s');
        case Store(c) => StoreKeepsInv(obs, s, c, s');
        case Race(a) => RaceKeepsInv(obs, s, a, s');
      }
    }
  }

  // ----- When all calls have returned

  predicate Quiet(obs: seq<Observation>, s: State) {
    && Shaped(obs, s)
    && (forall c :: 0 <= c < |obs| ==> s.added[c] == |Adds(obs[c])|)
    && (forall c :: 0 <= c < |obs| && obs[c].completed ==> s.max.calls[c].Finished?)
  }

  lemma {:induction false} TotalsAre(obs: seq<Observation>)
    ensures Total(obs, Requested) == TotalRequested(obs) && Total(obs, Elapsed) == TotalElapsed(obs)
    ensures Total(obs, Completions) == Windows.Completions(obs)
    ensures Total(obs, Interruptions) == Windows.Interruptions(obs)
    ensures Total(obs, Drift) == TotalDrift(obs)
  {
    if obs == [] {
    } else {
      TotalsAre(obs[..|obs| - 1]);
    }
  }

  /**
   Whatever the interleaving, once all calls have returned every counter is the
   sum over the observations and the maximum is their maximum: the state is the
   one their recording one by one leads to, up to which drift was stored last.
   */
  lemma RaceIsRecorded(obs: seq<Observation>, states: seq<State>, actions: seq<Action>, i: nat)
    requires Run(obs, states, actions) && i < |states| && Quiet(obs, states[i])
    ensures var cells := states[i].cells;
            && cells.requested == TotalRequested(obs) && cells.elapsed == TotalElapsed(obs)
            && cells.completions == Windows.Completions(obs) && cells.interruptions == Windows.Interruptions(obs)
            && cells.drift == TotalDrift(obs)
    ensures states[i].max.cell == MaxDrift(obs)
    ensures if Windows.Completions(obs) == 0 then states[i].last == 0
            else exists c :: 0 <= c < |obs| && obs[c].completed && obs[c].drift == states[i].last
  {
    hide Inv, Quiet, Act, Total;
    RunKeepsInv(obs, states, actions, i);
    RacedCounters(obs, states[i]);
    RacedMaximum(obs, states[i]);
    RacedLast(obs, states[i]);
  }

  lemma RacedCounter(obs: seq<Observation>, s: State, k: Counter)
    requires Quiet(obs, s) && Inv(obs, s)
    ensures Get(s.cells, k) == Total(obs, k)
  {
    hide Owed, Total, Adds;
    assert Balanced(obs, s, k);
    NothingOwed(obs, s.added, k);
  }

  lemma RacedCounters(obs: seq<Observation>, s: State)
    requires Quiet(obs, s) && Inv(obs, s)
    ensures s.cells.requested == TotalRequested(obs) && s.cells.elapsed == TotalElapsed(obs)
    ensures s.cells.completions == Windows.Completions(obs) && s.cells.interruptions == Windows.Interruptions(obs)
    ensures s.cells.drift == TotalDrift(obs)
  {
    hide Inv, Quiet, Total;
    TotalsAre(obs);
    RacedCounter(obs, s, Requested);
    RacedCounter(obs, s, Elapsed);
    RacedCounter(obs, s, Completions);
    RacedCounter(obs, s, Interruptions);
    RacedCounter(obs, s, Drift);
  }

  lemma RacedLast(obs: seq<Observation>, s: State)
    requires Quiet(obs, s) && Inv(obs, s)
    ensures if Windows.Completions(obs) == 0 then s.last == 0
            else exists c :: 0 <= c < |obs| && obs[c].completed && obs[c].drift == s.last
  {
    if Windows.Completions(obs) == 0 {
      NoneCompleted(obs);
    } else {
      MaxDriftIsMaximum(obs);
      var d :| 0 <= d < |obs| && obs[d].completed && obs[d].drift == MaxDrift(obs);
      assert s.stored[d];
    }
  }

  lemma {:induction false} NoneCompleted(obs: seq<Observation>)
    requires Windows.Completions(obs) == 0
    ensures forall c :: 0 <= c < |obs| ==> !obs[c].completed
  {
    if obs == [] {
    } else {
      NoneCompleted(obs[..|obs| - 1]);
      assert forall c :: 0 <= c < |obs| - 1 ==> obs[c] == obs[..|obs| - 1][c];
    }
  }

  lemma RacedMaximum(obs: seq<Observation>, s: State)
    requires Quiet(obs, s) && Inv(obs, s)
    ensures s.max.cell == MaxDrift(obs)
  {
    MaxDriftIsMaximum(obs);
    if Windows.Completions(obs) > 0 {
      var c :| 0 <= c < |obs| && obs[c].completed && obs[c].drift == MaxDrift(obs);
      assert s.max.calls[c].value <= s.max.cell;
    }
    if s.max.cell > 0 {
      var c :| 0 <= c < |s.max.calls| && s.max.calls[c] == UpdateMax.Finished(s.max.cell);
      assert obs[c].completed && obs[c].drift == s.max.cell;
    }
  }

  /** A record that has not returned has a step of its own. */
  lemma NeverStuck(obs: seq<Observation>, states: seq<State>, actions: seq<Action>, i: nat, c: nat)
    returns (t: Action, s': State)
    requires Run(obs, states, actions) && i < |states| && c < |obs|
    requires var s := states[i];
             Shaped(obs, s) && (s.added[c] < |Adds(obs[c])| || (obs[c].completed && !s.max.calls[c].Finished?))
    ensures Act(obs, states[i], t, s') && s' != states[i]
    ensures match t case Add(d) => d == c case Store(d) => d == c case Race(a) => a.c == c
  {
    hide UpdateMax.Act;
    var s := states[i];
    if s.added[c] < |Adds(obs[c])| {
      var k := Adds(obs[c])[s.added[c]];
      t, s' := Add(c), s.(cells := Plus(s.cells, k, Amount(obs[c], k)), added := s.added[c := s.added[c] + 1]);
      assert s'.added[c] != s.added[c];
    } else if !s.stored[c] {
      t, s' := Store(c), s.(last := obs[c].drift, stored := s.stored[c := true]);
      assert s'.stored[c] != s.stored[c];
    } else {
      var ms, ma := UpdateMax.AloneFinishes(s.max, c);
      assert ms[|ma|] != s.max;
      var n := FirstMove(ms, ma, c);
      t, s' := Race(ma[n]), s.(max := ms[n + 1]);
    }
  }

  /** The first step of a call that finishes is a step from where it stands. */
  lemma FirstMove(ms: seq<UpdateMax.State>, ma: seq<UpdateMax.Action>, c: nat) returns (n: nat)
    requires |ms| == |ma| + 1 && ms[|ma|] != ms[0]
    requires forall i :: 0 <= i < |ma| ==> ma[i].c == c && UpdateMax.Act(ms[i], ma[i], ms[i + 1])
    ensures n < |ma| && ms[n] == ms[0] && ms[n + 1] != ms[0] && ma[n].c == c
    ensures UpdateMax.Act(ms[n], ma[n], ms[n + 1])
  {
    hide UpdateMax.Act;
    n := 0;
    while n < |ma| && ms[n + 1] == ms[0]
      invariant n <= |ma| && ms[n] == ms[0]
    {
      n := n + 1;
    }
  }
}
