/** Provider bindings: what a scope binds a type to, and the snapshot a watcher compares. */
module Bindings {
  import opened Wrappers

  const EPOCH_MAX: nat := 0xFFFF_FFFF_FFFF_FFFF
  const ROOT_SCOPE: nat := 0

  datatype Kind = InheritedRoot | Local | Override

  datatype Binding = Binding(kind: Kind, epoch: nat)

  datatype Snapshot = Snapshot(scope: nat, kind: Kind, epoch: nat)

  function EffectiveBinding(scope: nat, binding: Option<Binding>): Snapshot {
    match binding
    case Some(b) => Snapshot(scope, b.kind, b.epoch)
    case None => Snapshot(ROOT_SCOPE, InheritedRoot, 0)
  }

  function MutatedBinding(binding: Option<Binding>, kind: Kind): Binding {
    var epoch := if binding.Some? then binding.value.epoch else 0;
    Binding(kind, if epoch < EPOCH_MAX then epoch + 1 else epoch)
  }

  /** A mutation is visible in the snapshot unless the saturated epoch and the kind both stay put. */
  lemma MutationVisibleIff(scope: nat, binding: Option<Binding>, kind: Kind)
    ensures EffectiveBinding(scope, Some(MutatedBinding(binding, kind))) != EffectiveBinding(scope, binding) <==>
            !(binding.Some? && binding.value.epoch >= EPOCH_MAX && binding.value.kind == kind)
  {
  }
}

/**
 Waiting for a binding change of one provider type in one scope:
 `binding_changed_from` against any number of concurrent `mutate_binding`s.

 The notifier is created by the first waiter that asks for it and a mutator
 skips a missing one.  Mutations are numbered in the order in which they change
 the binding; `pending[n]` holds while mutation n has yet to notify.
 */
module BindingWatch {
  import opened Wrappers
  import opened Bindings

  datatype WaiterPc = Fetching | Fetched | Rechecking | Parked | Returned

  /** `seen` is the number of mutations at the re-check that let the waiter park. */
  datatype Waiter = Waiter(observed: Snapshot, pc: WaiterPc, seen: nat, woken: bool)

  datatype State = State(scope: nat, binding: Option<Binding>, pending: seq<bool>, notifier: bool,
                         waiters: map<nat, Waiter>)

  datatype Step =
    | Join(w: nat, observed: Snapshot)
    | Fetch(w: nat)
    | Enable(w: nat)
    | Recheck(w: nat)
    | Resume(w: nat)
    | Mutate(kind: Kind)
    | Notify(n: nat)

  function Effective(s: State): Snapshot {
    EffectiveBinding(s.scope, s.binding)
  }

  predicate Registered(x: Waiter) { x.pc.Rechecking? || x.pc.Parked? }

  function Notified(x: Waiter): Waiter {
    if Registered(x) then x.(woken := true) else x
  }

  function Advance(s: State, x: Waiter): Waiter {
    match x.pc
    case Fetching => x.(pc := Fetched)
    case Fetched => x.(pc := Rechecking, woken := false)
    case Rechecking => if Effective(s) != x.observed then x.(pc := Returned) else x.(pc := Parked, seen := |s.pending|)
    case Parked => if x.woken then x.(pc := Fetching) else x
    case Returned => x
  }

  predicate AtPc(t: Step, pc: WaiterPc) {
    match t
    case Fetch(_) => pc.Fetching?
    case Enable(_) => pc.Fetched?
    case Recheck(_) => pc.Rechecking?
    case Resume(_) => pc.Parked?
    case _ => false
  }

  ghost predicate Act(s: State, t: Step, s': State) {
    match t
    case Join(w, observed) =>
      w !in s.waiters && s' == s.(waiters := s.waiters[w := Waiter(observed, Fetching, 0, false)])
    case Mutate(kind) =>
      s' == s.(binding := Some(MutatedBinding(s.binding, kind)), pending := s.pending + [true])
    case Notify(n) =>
      && n < |s.pending| && s.pending[n]
      && s' == s.(pending := s.pending[n := false],
                  waiters := if s.notifier then map w | w in s.waiters :: Notified(s.waiters[w]) else s.waiters)
    case _ =>
      && t.w in s.waiters && AtPc(t, s.waiters[t.w].pc)
      && s' == s.(waiters := s.waiters[t.w := Advance(s, s.waiters[t.w])], notifier := s.notifier || t.Fetch?)
  }

  // ----- Invariant

  ghost predicate WaiterOk(s: State, x: Waiter) {
    && (!x.pc.Fetching? && !x.pc.Returned? ==> s.notifier)
    && (x.pc.Parked? && !x.woken ==>
          && x.seen <= |s.pending|
          && (forall n :: x.seen <= n < |s.pending| ==> s.pending[n])
          && (x.seen == |s.pending| ==> Effective(s) == x.observed))
  }

  ghost predicate Inv(s: State) {
    forall w :: w in s.waiters ==> WaiterOk(s, s.waiters[w])
  }

  lemma ActKeepsInv(s: State, t: Step, s': State)
    requires Inv(s) && Act(s, t, s')
    ensures Inv(s')
  {
    forall w | w in s'.waiters ensures WaiterOk(s', s'.waiters[w]) {
      if w in s.waiters {
        assert WaiterOk(s, s.waiters[w]);
      }
    }
  }

  ghost predicate Run(states: seq<State>, steps: seq<Step>) {
    && |states| == |steps| + 1
    && states[0] == State(states[0].scope, None, [], false, map[])
    && forall i :: 0 <= i < |steps| ==> Act(states[i], steps[i], states[i + 1])
  }

  lemma {:induction false} RunKeepsInv(states: seq<State>, steps: seq<Step>, i: nat)
    requires Run(states, steps) && i < |states|
    ensures Inv(states[i])
  {
    if i == 0 {
    } else {
      RunKeepsInv(states, steps, i - 1);
      ActKeepsInv(states[i - 1], steps[i - 1], states[i]);
    }
  }

  // ----- Theorems over every interleaving

  /** A finished mutation leaves no waiter parked and unwoken unless that waiter re-checked after it. */
  lemma FinishedMutationReachesAll(states: seq<State>, steps: seq<Step>, i: nat, n: nat, w: nat)
    requires Run(states, steps) && i < |states| && w in states[i].waiters
    requires n < |states[i].pending| && !states[i].pending[n]
    ensures var x := states[i].waiters[w];
            x.pc.Parked? && !x.woken ==> n < x.seen
  {
    RunKeepsInv(states, steps, i);
  }

  /**
   No lost binding wakeup: once every mutation has finished, a waiter whose
   observed snapshot differs has returned, is woken, or has yet to re-check.
   */
  lemma NoLostWakeup(states: seq<State>, steps: seq<Step>, i: nat, w: nat)
    requires Run(states, steps) && i < |states| && w in states[i].waiters
    requires forall n :: 0 <= n < |states[i].pending| ==> !states[i].pending[n]
    requires Effective(states[i]) != states[i].waiters[w].observed
    ensures var x := states[i].waiters[w];
            !x.pc.Parked? || x.woken
  {
    var s, x := states[i], states[i].waiters[w];
    assert x.seen < |s.pending| ==> !s.pending[x.seen];
    RunKeepsInv(states, steps, i);
    assert WaiterOk(s, x);
  }

  /** A waiter returns only at a re-check that finds another binding than the observed one. */
  lemma {:induction false} ReturnsOnlyOnChange(states: seq<State>, steps: seq<Step>, j: nat, w: nat) returns (m: nat)
    requires Run(states, steps) && j < |states| && w in states[j].waiters && states[j].waiters[w].pc.Returned?
    ensures m < j && steps[m] == Recheck(w) && w in states[m].waiters && states[m].waiters[w].pc.Rechecking?
    ensures states[m].waiters[w].observed == states[j].waiters[w].observed
    ensures Effective(states[m]) != states[j].waiters[w].observed
  {
    hide Effective;
    assert j > 0;
    assert Act(states[j - 1], steps[j - 1], states[j]);
    if w in states[j - 1].waiters && states[j - 1].waiters[w].pc.Returned? {
      m := ReturnsOnlyOnChange(states, steps, j - 1, w);
    } else {
      m := j - 1;
    }
  }

  function MutationCount(steps: seq<Step>): nat {
    if steps == [] then 0 else MutationCount(steps[..|steps| - 1]) + (if steps[|steps| - 1].Mutate? then 1 else 0)
  }

  /** In every run the epoch counts the mutations, up to saturation, and the kind is that of the last one. */
  lemma {:induction false} EpochCounts(states: seq<State>, steps: seq<Step>, i: nat)
    requires Run(states, steps) && i < |states|
    ensures states[i].scope == states[0].scope && |states[i].pending| == MutationCount(steps[..i])
    ensures var n := MutationCount(steps[..i]);
            if n == 0 then states[i].binding.None?
            else states[i].binding.Some? && states[i].binding.value.epoch == (if n <= EPOCH_MAX then n else EPOCH_MAX)
    ensures i > 0 && steps[i - 1].Mutate? ==>
              states[i].binding.Some? && states[i].binding.value.kind == steps[i - 1].kind
    ensures i > 0 && !steps[i - 1].Mutate? ==> states[i].binding == states[i - 1].binding
  {
    if i == 0 {
    } else {
      EpochCounts(states, steps, i - 1);
      assert Act(states[i - 1], steps[i - 1], states[i]);
      assert steps[..i][..i - 1] == steps[..i - 1];
    }
  }

  predicate Own(t: Step, w: nat) {
    (t.Fetch? || t.Enable? || t.Recheck? || t.Resume?) && t.w == w
  }

  /** How many of the steps from i up to j are the waiter's own. */
  function OwnSteps(steps: seq<Step>, w: nat, i: nat, j: nat): nat
    requires i <= j <= |steps|
  {
    if i == j then 0 else OwnSteps(steps, w, i, j - 1) + (if Own(steps[j - 1], w) then 1 else 0)
  }

  /** How many of its own steps a waiter is from returning, if its next re-check lets it. */
  function Rank(pc: WaiterPc): nat {
    match pc
    case Fetching => 3
    case Fetched => 2
    case Rechecking => 1
    case Parked => 4
    case Returned => 0
  }

  lemma RankStep(s: State, t: Step, s': State, w: nat)
    requires Act(s, t, s') && w in s.waiters && (s.waiters[w].pc.Parked? ==> s.waiters[w].woken)
    requires Own(t, w) ==> Effective(s) != s.waiters[w].observed
    ensures w in s'.waiters && s'.waiters[w].observed == s.waiters[w].observed
    ensures s'.waiters[w].pc.Parked? ==> s'.waiters[w].woken
    ensures Rank(s'.waiters[w].pc) + (if Own(t, w) then 1 else 0) <= Rank(s.waiters[w].pc)
  {
    if Own(t, w) {
      assert s'.waiters[w] == Advance(s, s.waiters[w]);
    } else {
      assert s'.waiters[w] == s.waiters[w] || s'.waiters[w] == Notified(s.waiters[w]);
    }
  }

  /** Whatever falls between them, every own step brings a waiter that sees another binding nearer to its return. */
  lemma {:induction false} OwnStepsCount(states: seq<State>, steps: seq<Step>, i: nat, j: nat, w: nat)
    requires Run(states, steps) && i <= j < |states| && w in states[i].waiters
    requires states[i].waiters[w].pc.Parked? ==> states[i].waiters[w].woken
    requires forall m :: i <= m < j && Own(steps[m], w) ==> Effective(states[m]) != states[i].waiters[w].observed
    ensures w in states[j].waiters && states[j].waiters[w].observed == states[i].waiters[w].observed
    ensures states[j].waiters[w].pc.Parked? ==> states[j].waiters[w].woken
    ensures Rank(states[j].waiters[w].pc) + OwnSteps(steps, w, i, j) <= Rank(states[i].waiters[w].pc)
    decreases j
  {
    hide Act, Rank, Own;
    if i == j {
    } else {
      OwnStepsCount(states, steps, i, j - 1, w);
      RankStep(states[j - 1], steps[j - 1], states[j], w);
    }
  }

  /**
   Once every mutation has finished, a waiter whose observation differs returns
   with its fourth own step at the latest, whatever other waiters and further
   mutations do, unless the binding comes back to the observed one.
   */
  lemma ReturnsInFourSteps(states: seq<State>, steps: seq<Step>, i: nat, j: nat, w: nat)
    requires Run(states, steps) && i <= j < |states| && w in states[i].waiters
    requires forall n :: 0 <= n < |states[i].pending| ==> !states[i].pending[n]
    requires Effective(states[i]) != states[i].waiters[w].observed
    requires forall m :: i <= m < j && Own(steps[m], w) ==> Effective(states[m]) != states[i].waiters[w].observed
    requires OwnSteps(steps, w, i, j) >= 4
    ensures w in states[j].waiters && states[j].waiters[w].pc.Returned?
  {
    NoLostWakeup(states, steps, i, w);
    OwnStepsCount(states, steps, i, j, w);
  }

  // ----- What the saturating epoch costs

  lemma Extended(states: seq<State>, steps: seq<Step>, t: Step, s: State)
    returns (states': seq<State>, steps': seq<Step>)
    requires Run(states, steps) && Act(states[|states| - 1], t, s)
    ensures states' == states + [s] && steps' == steps + [t] && Run(states', steps')
  {
    hide Act;
    states', steps' := states + [s], steps + [t];
    forall i | 0 <= i < |steps'| ensures Act(states'[i], steps'[i], states'[i + 1]) {
      if i < |steps| {
        assert states'[i] == states[i] && states'[i + 1] == states[i + 1];
      }
    }
  }

  function AllDone(n: nat): seq<bool> { seq(n, _ => false) }

  /** After n > 0 finished mutations to a local binding, with nobody waiting. */
  function Mutated(n: nat): State {
    State(1, if n == 0 then None else Some(Binding(Local, n)), AllDone(n), false, map[])
  }

  lemma {:induction false} Mutations(n: nat) returns (states: seq<State>, steps: seq<Step>)
    requires n <= EPOCH_MAX
    ensures Run(states, steps) && states[|states| - 1] == Mutated(n)
  {
    if n == 0 {
      states, steps := [Mutated(0)], [];
    } else {
      states, steps := Mutations(n - 1);
      var changed := State(1, Some(Binding(Local, n)), AllDone(n - 1) + [true], false, map[]);
      assert changed.pending[n - 1 := false] == AllDone(n);
      states, steps := Extended(states, steps, Mutate(Local), changed);
      states, steps := Extended(states, steps, Notify(n - 1), Mutated(n));
    }
  }

  /** A waiter that finds what it observed parks. */
  lemma Parks(states: seq<State>, steps: seq<Step>, s: State, observed: Snapshot, seen: nat, woken: bool)
    returns (states': seq<State>, steps': seq<Step>)
    requires Run(states, steps) && states[|states| - 1] == Parking(s, Waiter(observed, Fetching, seen, woken))
    requires Effective(s) == observed
    ensures Run(states', steps') && states <= states' && steps <= steps'
    ensures states'[|states'| - 1] == Parking(s.(notifier := true), Waiter(observed, Parked, |s.pending|, false))
  {
    hide Run;
    var t := s.(notifier := true);
    states', steps' := Extended(states, steps, Fetch(0), Parking(t, Waiter(observed, Fetched, seen, woken)));
    states', steps' := Extended(states', steps', Enable(0), Parking(t, Waiter(observed, Rechecking, seen, false)));
    states', steps' := Extended(states', steps', Recheck(0), Parking(t, Waiter(observed, Parked, |s.pending|, false)));
  }

  /** A mutation without visible effect wakes the waiter, which starts over. */
  lemma WakesInVain(states: seq<State>, steps: seq<Step>, s: State, observed: Snapshot, n: nat)
    returns (states': seq<State>, steps': seq<Step>)
    requires Run(states, steps) && states[|states| - 1] == Parking(s, Waiter(observed, Parked, n, false))
    requires s.notifier && s.binding == Some(Binding(Local, EPOCH_MAX)) && s.pending == AllDone(n)
    ensures Run(states', steps') && states <= states' && steps < steps' && steps'[|steps|] == Mutate(Local)
    ensures states'[|states'| - 1] ==
            Parking(s.(pending := AllDone(n + 1)), Waiter(observed, Fetching, n, true))
  {
    hide Run;
    var changed, t := s.(pending := AllDone(n) + [true]), s.(pending := AllDone(n + 1));
    assert changed.pending[n := false] == AllDone(n + 1);
    states', steps' := Extended(states, steps, Mutate(Local), Parking(changed, Waiter(observed, Parked, n, false)));
    states', steps' := Extended(states', steps', Notify(n), Parking(t, Waiter(observed, Parked, n, true)));
    states', steps' := Extended(states', steps', Resume(0), Parking(t, Waiter(observed, Fetching, n, true)));
  }

  /**
   A binding change can go unnoticed: after 2^64 - 1 mutations a waiter parks,
   another mutation of the same kind wakes it, and it parks again.
   */
  lemma SaturationHidesChange() returns (states: seq<State>, steps: seq<Step>, m: nat)
    ensures Run(states, steps) && m < |steps| && steps[m].Mutate?
    ensures 0 in states[m].waiters && states[m].waiters[0].pc.Parked?
    ensures var s := states[|states| - 1];
            && (forall n :: 0 <= n < |s.pending| ==> !s.pending[n]) && |s.pending| == |states[m].pending| + 1
            && 0 in s.waiters && s.waiters[0].pc.Parked? && !s.waiters[0].woken
  {
    hide Act;
    var n := EPOCH_MAX;
    var observed, s := Snapshot(1, Local, n), Mutated(n);
    states, steps := Mutations(n);
    var joined := Parking(s, Waiter(observed, Fetching, 0, false));
    Joins(s, observed);
    states, steps := Extended(states, steps, Join(0, observed), joined);
    states, steps := Parks(states, steps, s, observed, 0, false);
    m := |steps|;
    s := s.(notifier := true);
    ghost var before := states;
    states, steps := WakesInVain(states, steps, s, observed, n);
    states, steps := Parks(states, steps, s.(pending := AllDone(n + 1)), observed, n, true);
    assert states[m] == before[m];
  }

  lemma Joins(s: State, observed: Snapshot)
    requires s.waiters == map[]
    ensures Act(s, Join(0, observed), Parking(s, Waiter(observed, Fetching, 0, false)))
  {
  }

  /** The state with one waiter */
  function Parking(s: State, x: Waiter): State {
    s.(waiters := map[0 := x])
  }

  /** A waiter is never blocked except while parked and not woken: otherwise it has a step that changes it. */
  lemma WaiterNeverStuck(s: State, w: nat) returns (t: Step, s': State)
    requires w in s.waiters && !s.waiters[w].pc.Returned? && (s.waiters[w].pc.Parked? ==> s.waiters[w].woken)
    ensures Own(t, w) && Act(s, t, s') && s'.waiters[w] == Advance(s, s.waiters[w]) != s.waiters[w]
  {
    t := match s.waiters[w].pc
      case Fetching => Fetch(w)
      case Fetched => Enable(w)
      case Rechecking => Recheck(w)
      case Parked => Resume(w)
      case Returned => Mutate(Local);
    s' := s.(waiters := s.waiters[w := Advance(s, s.waiters[w])], notifier := s.notifier || t.Fetch?);
  }

  /** Mutations are never blocked, neither their change nor their notification. */
  lemma MutatorNeverStuck(s: State, kind: Kind, n: nat) returns (changed: State, notified: State)
    ensures Act(s, Mutate(kind), changed) && |changed.pending| == |s.pending| + 1
    ensures n < |s.pending| && s.pending[n] ==> Act(s, Notify(n), notified) && !notified.pending[n]
  {
    changed := s.(binding := Some(MutatedBinding(s.binding, kind)), pending := s.pending + [true]);
    notified := s;
    if n < |s.pending| && s.pending[n] {
      notified := s.(pending := s.pending[n := false],
                     waiters := if s.notifier then map w | w in s.waiters :: Notified(s.waiters[w]) else s.waiters);
    }
  }
}
