/**
 The concurrency ledger of a trigger: a semaphore, the limit stored beside it,
 and a reconciler that moves both towards a requested limit while dispatches
 take and return permits between any two of its atomic steps.

 Reconcilers exclude each other through a lock, so at most one is under way; its
 program counter is the `phase`.
 */
module Permits {
  datatype Phase =
    | Resting
    | Clamped(desired: nat)
    | LimitLoaded(desired: nat, current: nat)
    | PermitsLoaded(desired: nat, current: nat, seen: nat)
    | PermitsAdded(desired: nat, current: nat)
    | Revoking(desired: nat, current: nat, left: nat, revoked: nat)

  datatype Ledger = Ledger(max: nat, limit: nat, available: nat, inFlight: nat, phase: Phase)

  function SatSub(a: nat, b: nat): nat { if a >= b then a - b else 0 }

  function Max(a: nat, b: nat): nat { if a >= b then a else b }

  /** desired.min(max).max(1) */
  function Clamp(desired: nat, max: nat): nat {
    Max(1, if desired <= max then desired else max)
  }

  /** The value of 1..max nearest to the one wanted. */
  lemma ClampIsNearest(desired: nat, max: nat)
    requires max >= 1
    ensures 1 <= Clamp(desired, max) <= max
    ensures 1 <= desired <= max ==> Clamp(desired, max) == desired
    ensures desired < 1 ==> Clamp(desired, max) == 1
    ensures desired > max ==> Clamp(desired, max) == max
  {
  }

  // ----- Atomic steps

  datatype Action =
    | Begin(desired: nat)
    | LoadLimit
    | LoadPermits
    | Branch
    | StoreGrown
    | RevokeOne
    | RevokeFails
    | StoreShrunk
    | Acquire
    | Release
    | Idle

  predicate Dispatch(a: Action) {
    a.Acquire? || a.Release?
  }

  ghost predicate Act(s: Ledger, a: Action, s': Ledger) {
    match a
    case Begin(desired) => s.phase.Resting? && s' == s.(phase := Clamped(Clamp(desired, s.max)))
    case LoadLimit => s.phase.Clamped? && s' == s.(phase := LimitLoaded(s.phase.desired, s.limit))
    case LoadPermits =>
      s.phase.LimitLoaded? && s' == s.(phase := PermitsLoaded(s.phase.desired, s.phase.current, s.available))
    case Branch =>
      s.phase.PermitsLoaded? && s' == Branched(s, s.phase.desired, s.phase.current, s.phase.seen)
    case StoreGrown => s.phase.PermitsAdded? && s' == s.(limit := s.phase.desired, phase := Resting)
    case RevokeOne =>
      && s.phase.Revoking? && s.phase.left > 0 && s.available > 0
      && s' == s.(available := s.available - 1,
                  phase := s.phase.(left := s.phase.left - 1, revoked := s.phase.revoked + 1))
    case RevokeFails =>
      s.phase.Revoking? && s.phase.left > 0 && s.available == 0 && s' == s.(phase := s.phase.(left := 0))
    case StoreShrunk =>
      && s.phase.Revoking? && s.phase.left == 0
      && s' == s.(limit := SatSub(s.phase.current, s.phase.revoked), phase := Resting)
    case Acquire => s.available > 0 && s' == s.(available := s.available - 1, inFlight := s.inFlight + 1)
    case Release => s.inFlight > 0 && s' == s.(available := s.available + 1, inFlight := s.inFlight - 1)
    case Idle => s' == s
  }

  function Branched(s: Ledger, desired: nat, current: nat, seen: nat): Ledger {
    if desired > current then
      s.(available := s.available + (desired - current), phase := PermitsAdded(desired, current))
    else if desired < current then
      var target := Max(desired, SatSub(current, seen));
      s.(phase := Revoking(desired, current, SatSub(current, target), 0))
    else s.(phase := Resting)
  }

  // ----- Conservation

  /** Permits added or forgotten by the reconciler that the stored limit does not show yet. */
  function Unstored(p: Phase): int {
    match p
    case PermitsAdded(desired, current) => desired - current as int
    case Revoking(_, _, _, revoked) => 0 - revoked
    case _ => 0
  }

  ghost predicate Inv(s: Ledger) {
    && 1 <= s.limit <= s.max
    && s.available + s.inFlight == s.limit + Unstored(s.phase)
    && (!s.phase.Resting? ==> 1 <= s.phase.desired <= s.max)
    && (!s.phase.Resting? && !s.phase.Clamped? ==> s.phase.current == s.limit)
    && (s.phase.PermitsAdded? ==> s.limit < s.phase.desired)
    && (s.phase.Revoking? ==> s.phase.desired + s.phase.left + s.phase.revoked <= s.limit)
  }

  lemma ActKeepsInv(s: Ledger, a: Action, s': Ledger)
    requires Inv(s) && Act(s, a, s')
    ensures Inv(s') && s'.max == s.max
  {
  }

  ghost predicate Run(states: seq<Ledger>, actions: seq<Action>) {
    && |states| == |actions| + 1
    && Inv(states[0]) && states[0].phase.Resting?
    && forall i :: 0 <= i < |actions| ==> Act(states[i], actions[i], states[i + 1])
  }

  lemma {:induction false} RunKeepsInv(states: seq<Ledger>, actions: seq<Action>, i: nat)
    requires Run(states, actions) && i < |states|
    ensures Inv(states[i]) && states[i].max == states[0].max
  {
    if i == 0 {
    } else {
      RunKeepsInv(states, actions, i - 1);
      ActKeepsInv(states[i - 1], actions[i - 1], states[i]);
    }
  }

  /** What `pressure_snapshot` computes from the two shared cells. */
  function ReportedInFlight(s: Ledger): nat {
    SatSub(s.limit, s.available)
  }

  /**
   In every state of every interleaving permits are conserved, dispatches never
   exceed the maximum, and the reported in-flight count is off by exactly the
   permits the reconciler has not stored yet; at rest it is the true count.
   */
  lemma Conservation(states: seq<Ledger>, actions: seq<Action>, i: nat)
    requires Run(states, actions) && i < |states|
    ensures var s := states[i];
            && s.available + s.inFlight == s.limit + Unstored(s.phase)
            && 1 <= s.limit <= states[0].max && s.inFlight <= states[0].max
            && (s.phase.Resting? ==> s.available + s.inFlight == s.limit && ReportedInFlight(s) == s.inFlight)
            && (s.phase.Revoking? ==> ReportedInFlight(s) == s.inFlight + s.phase.revoked)
            && (s.phase.PermitsAdded? ==>
                  ReportedInFlight(s) == SatSub(s.inFlight, SatSub(s.phase.desired, s.phase.current)))
  {
    RunKeepsInv(states, actions, i);
  }

  /**
   The count is really computed from two loads, the limit at one moment and the
   permits at a later one.  It is the true count at the second load, shifted by
   what the limit changed in between and by permits not stored yet; with no
   reconcile in between it is the true count.
   */
  lemma ReportedFromTwoLoads(states: seq<Ledger>, actions: seq<Action>, i: nat, j: nat)
    requires Run(states, actions) && i <= j < |states|
    ensures var shifted := states[j].inFlight + states[i].limit - states[j].limit - Unstored(states[j].phase);
            SatSub(states[i].limit, states[j].available) == if shifted >= 0 then shifted else 0
    ensures states[i].limit == states[j].limit && states[j].phase.Resting? ==>
              SatSub(states[i].limit, states[j].available) == states[j].inFlight
  {
    RunKeepsInv(states, actions, i);
    RunKeepsInv(states, actions, j);
  }

  // ----- One reconcile, from its lock to its store, under interference

  /** Positions strictly between a reconcile's first step and its return to rest. */
  ghost predicate Within(states: seq<Ledger>, i: nat, k: nat) {
    i < k < |states| && forall m :: i < m <= k ==> !states[m].phase.Resting?
  }

  lemma {:induction false} TargetFixed(states: seq<Ledger>, actions: seq<Action>, i: nat, k: nat)
    requires Run(states, actions) && i < |actions| && actions[i].Begin? && Within(states, i, k)
    ensures states[k].phase.desired == Clamp(actions[i].desired, states[0].max)
    ensures states[k].limit == states[i].limit
    decreases k
  {
    RunKeepsInv(states, actions, k - 1);
    RunKeepsInv(states, actions, k);
    if i + 1 < k {
      TargetFixed(states, actions, i, k - 1);
    }
  }

  /**
   Whatever dispatches do meanwhile: growing reaches the clamped target
   exactly, shrinking ends between the target and the old limit and never below
   the work in flight, and the limit moves only at the final store.
   */
  lemma ReconcileOutcome(states: seq<Ledger>, actions: seq<Action>, i: nat, j: nat)
    requires Run(states, actions) && i < |actions| && actions[i].Begin?
    requires i + 1 < j < |states| && Within(states, i, j - 1) && states[j].phase.Resting?
    ensures var target := Clamp(actions[i].desired, states[0].max);
            var before, after := states[i].limit, states[j].limit;
            && (before <= target ==> after == target)
            && (target < before ==> target <= after <= before)
            && states[j].inFlight <= after
            && 1 <= after <= states[0].max
  {
    TargetFixed(states, actions, i, j - 1);
    RunKeepsInv(states, actions, j - 1);
    RunKeepsInv(states, actions, j);
  }

  /** No permit was idle when the reconciler looked: at its sample, or at its first attempt to revoke one. */
  ghost predicate FoundNoneIdle(s: Ledger, a: Action) {
    || (a.LoadPermits? && s.available == 0)
    || (a.RevokeFails? && s.phase.Revoking? && s.phase.revoked == 0)
  }

  ghost predicate NoneIdleWithin(states: seq<Ledger>, actions: seq<Action>, i: nat, k: nat)
    requires k <= |actions| && k <= |states|
  {
    exists m :: i < m < k && FoundNoneIdle(states[m], actions[m])
  }

  /** The reconciler is bound to revoke nothing. */
  predicate Spares(p: Phase) {
    (p.PermitsLoaded? && p.seen == 0) || (p.Revoking? && p.revoked == 0 && p.left == 0)
  }

  lemma SparesStep(s: Ledger, a: Action, s': Ledger)
    requires Inv(s) && Act(s, a, s') && !s.phase.Resting? && !s'.phase.Resting?
    requires !s.phase.PermitsAdded? && s.phase.desired < s.limit
    ensures !s'.phase.PermitsAdded?
    ensures Spares(s'.phase) <==> Spares(s.phase) || FoundNoneIdle(s, a)
  {
    match a {
      case Begin(_) =>
      case LoadLimit =>
      case LoadPermits =>
      case Branch =>
      case StoreGrown =>
      case RevokeOne =>
      case RevokeFails =>
      case StoreShrunk =>
      case Acquire =>
      case Release =>
      case Idle =>
    }
  }

  lemma {:induction false} NoneIdleTracked(states: seq<Ledger>, actions: seq<Action>, i: nat, k: nat)
    requires Run(states, actions) && i < |actions| && actions[i].Begin? && Within(states, i, k)
    requires Clamp(actions[i].desired, states[0].max) < states[i].limit
    ensures !states[k].phase.PermitsAdded?
    ensures k <= |actions| && (NoneIdleWithin(states, actions, i, k) <==> Spares(states[k].phase))
    decreases k
  {
    hide Inv, FoundNoneIdle, Spares;
    RunKeepsInv(states, actions, k - 1);
    assert Act(states[k - 1], actions[k - 1], states[k]);
    if i + 1 == k {
      NothingSpared(states[i], actions[i], states[k]);
    } else {
      hide Act, NoneIdleWithin;
      NoneIdleTracked(states, actions, i, k - 1);
      TargetFixed(states, actions, i, k - 1);
      SparesStep(states[k - 1], actions[k - 1], states[k]);
      NoneIdleStep(states, actions, i, k);
    }
  }

  lemma NothingSpared(s: Ledger, a: Action, s': Ledger)
    requires a.Begin? && Act(s, a, s')
    ensures !Spares(s'.phase) && !s'.phase.PermitsAdded?
  {
  }

  lemma NoneIdleStep(states: seq<Ledger>, actions: seq<Action>, i: nat, k: nat)
    requires i + 1 < k < |states| && |states| == |actions| + 1
    ensures NoneIdleWithin(states, actions, i, k) <==>
              NoneIdleWithin(states, actions, i, k - 1) || FoundNoneIdle(states[k - 1], actions[k - 1])
  {
    if NoneIdleWithin(states, actions, i, k - 1) {
      var m :| i < m < k - 1 && FoundNoneIdle(states[m], actions[m]);
    }
  }

  /** A reconcile towards a smaller limit leaves the limit alone if and only if it found no permit idle. */
  lemma ShrinkKeepsIff(states: seq<Ledger>, actions: seq<Action>, i: nat, j: nat)
    requires Run(states, actions) && i < |actions| && actions[i].Begin?
    requires i + 1 < j < |states| && Within(states, i, j - 1) && states[j].phase.Resting?
    requires Clamp(actions[i].desired, states[0].max) < states[i].limit
    ensures states[j].limit == states[i].limit <==> NoneIdleWithin(states, actions, i, j - 1)
  {
    NoneIdleTracked(states, actions, i, j - 1);
    hide NoneIdleWithin;
    TargetFixed(states, actions, i, j - 1);
    RunKeepsInv(states, actions, j - 1);
    assert Act(states[j - 1], actions[j - 1], states[j]);
  }

  /** The reconciler never blocks, and no more than a bounded number of its steps remain. */
  function StepsLeft(p: Phase): nat {
    match p
    case Resting => 0
    case Clamped(_) => 4
    case LimitLoaded(_, _) => 3
    case PermitsLoaded(_, current, _) => 2
    case PermitsAdded(_, _) => 1
    case Revoking(_, _, left, _) => 1
  }

  function Progress(p: Phase): (nat, nat) {
    (StepsLeft(p), if p.Revoking? then p.left else 0)
  }

  predicate Less(a: (nat, nat), b: (nat, nat)) {
    a.0 < b.0 || (a.0 == b.0 && a.1 < b.1)
  }

  /** Running work can always return its permit, an idle permit can be taken, and a reconcile can begin at rest. */
  lemma NeverStuck(s: Ledger, desired: nat) returns (released: Ledger, acquired: Ledger, begun: Ledger)
    ensures s.inFlight > 0 ==> Act(s, Release, released) && released.inFlight == s.inFlight - 1
    ensures s.available > 0 ==> Act(s, Acquire, acquired) && acquired.inFlight == s.inFlight + 1
    ensures s.phase.Resting? ==> Act(s, Begin(desired), begun) && !begun.phase.Resting?
  {
    released := s.(available := s.available + 1, inFlight := SatSub(s.inFlight, 1));
    acquired := s.(available := SatSub(s.available, 1), inFlight := s.inFlight + 1);
    begun := s.(phase := Clamped(Clamp(desired, s.max)));
  }

  lemma ReconcilerProgress(s: Ledger)
    requires !s.phase.Resting?
    ensures exists a, s' :: !Dispatch(a) && !a.Idle? && Act(s, a, s')
    ensures forall a, s' :: Act(s, a, s') && !Dispatch(a) && !a.Idle? ==> Less(Progress(s'.phase), Progress(s.phase))
    ensures forall a, s' :: Act(s, a, s') && Dispatch(a) ==> s'.phase == s.phase && s'.limit == s.limit
  {
    match s.phase {
      case Clamped(desired) => assert Act(s, LoadLimit, s.(phase := LimitLoaded(desired, s.limit)));
      case LimitLoaded(desired, current) =>
        assert Act(s, LoadPermits, s.(phase := PermitsLoaded(desired, current, s.available)));
      case PermitsLoaded(desired, current, seen) => assert Act(s, Branch, Branched(s, desired, current, seen));
      case PermitsAdded(desired, _) => assert Act(s, StoreGrown, s.(limit := desired, phase := Resting));
      case Revoking(_, current, left, revoked) =>
        if left == 0 {
          assert Act(s, StoreShrunk, s.(limit := SatSub(current, revoked), phase := Resting));
        } else if s.available == 0 {
          assert Act(s, RevokeFails, s.(phase := s.phase.(left := 0)));
        } else {
          assert Act(s, RevokeOne, s.(available := s.available - 1,
                                      phase := s.phase.(left := left - 1, revoked := revoked + 1)));
        }
    }
  }

  // ----- One reconcile without interference

  /** Where an undisturbed reconcile ends. */
  function ReconciledLimit(limit: nat, inFlight: nat, target: nat): (r: nat)
    ensures inFlight <= target ==> r == target
    ensures inFlight <= limit ==> target <= r && inFlight <= r
  {
    if target >= limit then target else Max(target, inFlight)
  }

  ghost predicate Undisturbed(actions: seq<Action>, i: nat, j: nat) {
    j <= |actions| && forall m :: i <= m < j ==> !Dispatch(actions[m])
  }

  /** Without dispatches the sampled availability stays true, so no revocation fails. */
  ghost predicate Faithful(s: Ledger) {
    && (s.phase.PermitsLoaded? ==> s.phase.seen == s.available)
    && (s.phase.Revoking? ==> s.phase.left + s.phase.revoked + Max(s.phase.desired, s.inFlight) == s.limit)
  }

  lemma {:induction false} UndisturbedFaithful(states: seq<Ledger>, actions: seq<Action>, i: nat, k: nat)
    requires Run(states, actions) && i < |actions| && actions[i].Begin? && Within(states, i, k)
    requires Undisturbed(actions, i, k)
    ensures Faithful(states[k]) && states[k].inFlight == states[i].inFlight
    decreases k
  {
    RunKeepsInv(states, actions, k - 1);
    if i + 1 < k {
      UndisturbedFaithful(states, actions, i, k - 1);
    }
  }

  /**
   One undisturbed reconcile: the limit becomes the target, or stays above it
   only by work still in flight.  When the work in flight fits, the target is
   reached exactly and another undisturbed reconcile changes nothing.
   */
  lemma Convergence(states: seq<Ledger>, actions: seq<Action>, i: nat, j: nat)
    requires Run(states, actions) && i < |actions| && actions[i].Begin?
    requires i + 1 < j < |states| && Within(states, i, j - 1) && states[j].phase.Resting?
    requires Undisturbed(actions, i, j)
    ensures var target := Clamp(actions[i].desired, states[0].max);
            && states[j].limit == ReconciledLimit(states[i].limit, states[i].inFlight, target)
            && states[j].inFlight == states[i].inFlight
            && (states[i].inFlight <= target ==> states[j].limit == target)
            && (states[i].limit == target ==> states[j] == states[i])
  {
    var target := Clamp(actions[i].desired, states[0].max);
    TargetFixed(states, actions, i, j - 1);
    UndisturbedFaithful(states, actions, i, j - 1);
    RunKeepsInv(states, actions, i);
    RunKeepsInv(states, actions, j - 1);
    RunKeepsInv(states, actions, j);
    assert Act(states[i], actions[i], states[i + 1]);
    assert Act(states[j - 1], actions[j - 1], states[j]);
  }
}
