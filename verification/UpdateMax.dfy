/**
 Any number of `update_max` calls racing on one atomic cell.  Each loads the
 cell and then compares and swaps until its value no longer exceeds what it
 last saw; a weak compare-and-swap may fail even when the cell matches.
 */
module UpdateMax {
  datatype Call = Fresh(value: nat) | Looping(value: nat, current: nat) | Finished(value: nat)

  datatype State = State(cell: nat, calls: seq<Call>)

  datatype Action = Load(c: nat) | Leave(c: nat) | Swap(c: nat) | Fail(c: nat)

  ghost predicate Act(s: State, a: Action, s': State) {
    a.c < |s.calls| &&
    var call := s.calls[a.c];
    match a
    case Load(c) => call.Fresh? && s' == s.(calls := s.calls[c := Looping(call.value, s.cell)])
    case Leave(c) =>
      call.Looping? && call.value <= call.current && s' == s.(calls := s.calls[c := Finished(call.value)])
    case Swap(c) =>
      && call.Looping? && call.value > call.current && s.cell == call.current
      && s' == State(call.value, s.calls[c := Finished(call.value)])
    case Fail(c) =>
      call.Looping? && call.value > call.current && s' == s.(calls := s.calls[c := call.(current := s.cell)])
  }

  ghost predicate Run(states: seq<State>, actions: seq<Action>) {
    && |states| == |actions| + 1
    && (forall c :: 0 <= c < |states[0].calls| ==> states[0].calls[c].Fresh?)
    && forall i :: 0 <= i < |actions| ==> Act(states[i], actions[i], states[i + 1])
  }

  /** The cell holds the greatest of the initial value and the values of the finished calls. */
  ghost predicate Inv(s: State, initial: nat) {
    && s.cell >= initial
    && (s.cell == initial || exists c :: 0 <= c < |s.calls| && s.calls[c] == Finished(s.cell))
    && (forall c :: 0 <= c < |s.calls| && s.calls[c].Finished? ==> s.calls[c].value <= s.cell)
    && (forall c :: 0 <= c < |s.calls| && s.calls[c].Looping? ==> s.calls[c].current <= s.cell)
  }

  ghost predicate SameValues(s: State, s': State) {
    |s'.calls| == |s.calls| && forall c :: 0 <= c < |s.calls| ==> s'.calls[c].value == s.calls[c].value
  }

  lemma ActKeepsInv(s: State, a: Action, s': State, initial: nat)
    requires Inv(s, initial) && Act(s, a, s')
    ensures Inv(s', initial) && SameValues(s, s') && s.cell <= s'.cell
  {
    if s'.cell == initial {
    } else if s'.cell == s.cell {
      var c :| 0 <= c < |s.calls| && s.calls[c] == Finished(s.cell);
      assert s'.calls[c] == Finished(s'.cell);
    } else {
      assert s'.calls[a.c] == Finished(s'.cell);
    }
  }

  lemma {:induction false} RunKeepsInv(states: seq<State>, actions: seq<Action>, i: nat)
    requires Run(states, actions) && i < |states|
    ensures Inv(states[i], states[0].cell) && SameValues(states[0], states[i])
  {
    if i == 0 {
    } else {
      RunKeepsInv(states, actions, i - 1);
      ActKeepsInv(states[i - 1], actions[i - 1], states[i], states[0].cell);
    }
  }

  /** The cell never decreases. */
  lemma {:induction false} Monotone(states: seq<State>, actions: seq<Action>, i: nat, j: nat)
    requires Run(states, actions) && i <= j < |states|
    ensures states[i].cell <= states[j].cell
    decreases j
  {
    if i == j {
    } else {
      Monotone(states, actions, i, j - 1);
      RunKeepsInv(states, actions, j - 1);
      ActKeepsInv(states[j - 1], actions[j - 1], states[j], states[0].cell);
    }
  }

  /** Independently of any run: the greatest of a number and the elements of a list. */
  ghost predicate IsMaximum(m: nat, initial: nat, values: seq<nat>) {
    && m >= initial && (forall i :: 0 <= i < |values| ==> m >= values[i])
    && (m == initial || m in values)
  }

  function Submitted(s: State): seq<nat> {
    seq(|s.calls|, c requires 0 <= c < |s.calls| => s.calls[c].value)
  }

  lemma FinalMaximum(states: seq<State>, actions: seq<Action>, j: nat)
    requires Run(states, actions) && j < |states|
    requires forall c :: 0 <= c < |states[j].calls| ==> states[j].calls[c].Finished?
    ensures IsMaximum(states[j].cell, states[0].cell, Submitted(states[0]))
  {
    RunKeepsInv(states, actions, j);
    var last, values := states[j], Submitted(states[0]);
    forall c | 0 <= c < |values| ensures values[c] == last.calls[c].value {
      assert states[0].calls[c].value == last.calls[c].value;
    }
    if last.cell != states[0].cell {
      var c :| 0 <= c < |last.calls| && last.calls[c] == Finished(last.cell);
      assert values[c] == last.cell;
    }
  }

  /** A failure that is not spurious means another call has raised the cell meanwhile. */
  lemma FailureMeansProgress(states: seq<State>, actions: seq<Action>, i: nat)
    requires Run(states, actions) && i < |actions| && actions[i].Fail?
    ensures var c := actions[i].c;
            c < |states[i].calls| && states[i].calls[c].Looping? &&
            (states[i].cell != states[i].calls[c].current ==>
               states[i].calls[c].current < states[i].cell && states[i].cell == states[i + 1].cell)
  {
    RunKeepsInv(states, actions, i);
    assert Act(states[i], actions[i], states[i + 1]);
  }

  /** A call is never blocked: on its own it finishes within three steps. */
  lemma AloneFinishes(s: State, c: nat) returns (states: seq<State>, actions: seq<Action>)
    requires c < |s.calls|
    ensures |actions| <= 3 && |states| == |actions| + 1 && states[0] == s
    ensures forall i :: 0 <= i < |actions| ==> actions[i].c == c && Act(states[i], actions[i], states[i + 1])
    ensures c < |states[|actions|].calls| && states[|actions|].calls[c].Finished?
  {
    var call := s.calls[c];
    match call {
      case Finished(_) => states, actions := [s], [];
      case Fresh(v) =>
        var s1 := s.(calls := s.calls[c := Looping(v, s.cell)]);
        var last := Last(s1, c);
        states, actions := [s, s1, last.1], [Load(c), last.0];
      case Looping(v, current) =>
        if v <= current || current == s.cell {
          var last := Last(s, c);
          states, actions := [s, last.1], [last.0];
        } else {
          var s1 := s.(calls := s.calls[c := Looping(v, s.cell)]);
          var last := Last(s1, c);
          states, actions := [s, s1, last.1], [Fail(c), last.0];
        }
    }
  }

  /** The step with which a call ends that has just read the cell. */
  function Last(s: State, c: nat): (Action, State)
    requires c < |s.calls| && s.calls[c].Looping?
  {
    var call := s.calls[c];
    if call.value <= call.current then (Leave(c), s.(calls := s.calls[c := Finished(call.value)]))
    else (Swap(c), State(call.value, s.calls[c := Finished(call.value)]))
  }
}
