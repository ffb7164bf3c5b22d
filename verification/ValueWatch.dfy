/**
 Waiting for a value change: `changed_since` against the publications of a
 tracked lock, as atomic steps of any number of waiters and of the one writer
 that holds the lock.

 A publication replaces the channel value, then bumps the epoch, then notifies;
 a waiter reads the epoch, registers, reads again and only then parks.  The
 epoch is a 64-bit counter that wraps; `bumps` counts without wrapping.
 */
module ValueWatch {
  const EPOCH_MODULUS: nat := 0x1_0000_0000_0000_0000

  function Epoch(bumps: nat): nat { bumps % EPOCH_MODULUS }

  /** Program counter of a waiter; registration lasts through Rechecking and Parked. */
  datatype WaiterPc = Checking | Subscribing | Rechecking | Parked | Returned(bumps: nat)

  /** `observed` and `seen` are the bump counts at the observation and at the last read that let the waiter go on. */
  datatype Waiter = Waiter(observed: nat, pc: WaiterPc, seen: nat, woken: bool)

  /** Where the lock holder is in a publication. */
  datatype WriterPc = Unlocked | Holding | Replaced | Bumped

  datatype State = State(bumps: nat, channel: nat, writer: WriterPc, waiters: map<nat, Waiter>)

  const INITIAL := State(0, 0, Unlocked, map[])

  datatype Step =
    | Join(w: nat, observed: nat)
    | Check(w: nat)
    | Subscribe(w: nat)
    | Recheck(w: nat)
    | Resume(w: nat)
    | Lock
    | Replace
    | Bump
    | Notify
    | Unlock

  function Registered(x: Waiter): bool { x.pc.Rechecking? || x.pc.Parked? }

  function Notified(x: Waiter): Waiter {
    if Registered(x) then x.(woken := true) else x
  }

  /** One read of the epoch: return when it differs from the observed one, else go on to `next`. */
  function Read(s: State, x: Waiter, next: WaiterPc): Waiter {
    if Epoch(s.bumps) != Epoch(x.observed) then x.(pc := Returned(s.bumps)) else x.(pc := next, seen := s.bumps)
  }

  /** What a waiter's own next step makes of it; a parked waiter moves only once woken. */
  function Advance(s: State, x: Waiter): Waiter {
    match x.pc
    case Checking => Read(s, x, Subscribing)
    case Subscribing => x.(pc := Rechecking, woken := false)
    case Rechecking => Read(s, x, Parked)
    case Parked => if x.woken then x.(pc := Checking) else x
    case Returned(_) => x
  }

  predicate AtPc(t: Step, pc: WaiterPc) {
    match t
    case Check(_) => pc.Checking?
    case Subscribe(_) => pc.Subscribing?
    case Recheck(_) => pc.Rechecking?
    case Resume(_) => pc.Parked?
    case _ => false
  }

  ghost predicate Act(s: State, t: Step, s': State) {
    match t
    case Join(w, observed) =>
      w !in s.waiters && observed <= s.bumps
      && s' == s.(waiters := s.waiters[w := Waiter(observed, Checking, s.bumps, false)])
    case Lock => s.writer.Unlocked? && s' == s.(writer := Holding)
    case Replace => s.writer.Holding? && s' == s.(writer := Replaced, channel := s.channel + 1)
    case Bump => s.writer.Replaced? && s' == s.(writer := Bumped, bumps := s.bumps + 1)
    case Notify =>
      s.writer.Bumped? && s' == s.(writer := Holding, waiters := map w | w in s.waiters :: Notified(s.waiters[w]))
    case Unlock => s.writer.Holding? && s' == s.(writer := Unlocked)
    case _ =>
      t.w in s.waiters && AtPc(t, s.waiters[t.w].pc)
      && s' == s.(waiters := s.waiters[t.w := Advance(s, s.waiters[t.w])])
  }

  // ----- Invariant

  /** A parked waiter that nobody woke has missed nothing except a bump still waiting for its notification. */
  ghost predicate WaiterOk(s: State, x: Waiter) {
    && x.observed <= s.bumps
    && (x.pc.Parked? ==> Epoch(x.seen) == Epoch(x.observed))
    && (x.pc.Parked? && !x.woken ==> s.bumps == x.seen || (s.writer.Bumped? && s.bumps == x.seen + 1))
    && (x.pc.Returned? ==> x.pc.bumps <= s.bumps && Epoch(x.pc.bumps) != Epoch(x.observed))
  }

  ghost predicate Inv(s: State) {
    && s.channel == s.bumps + (if s.writer.Replaced? then 1 else 0)
    && forall w :: w in s.waiters ==> WaiterOk(s, s.waiters[w])
  }

  lemma ActKeepsInv(s: State, t: Step, s': State)
    requires Inv(s) && Act(s, t, s')
    ensures Inv(s')
    ensures s.bumps <= s'.bumps && s.channel <= s'.channel
  {
    forall w | w in s'.waiters ensures WaiterOk(s', s'.waiters[w]) {
      if w in s.waiters {
        assert WaiterOk(s, s.waiters[w]);
      }
    }
  }

  ghost predicate Run(states: seq<State>, steps: seq<Step>) {
    && |states| == |steps| + 1 && states[0] == INITIAL
    && forall i :: 0 <= i < |steps| ==> Act(states[i], steps[i], states[i + 1])
  }

  lemma {:induction false} RunKeepsInv(states: seq<State>, steps: seq<Step>, i: nat)
    requires Run(states, steps) && i < |states|
    ensures Inv(states[i])
  {
    if i == 0 {
    } else {
      RunKeepsInv(states, steps, i - 1);
      ActKeepsInv(states[i - 1], steps[i - 1], states[i]);
    }
  }

  // ----- Theorems over every interleaving

  /** No lost wakeup. */
  lemma NoLostWakeup(states: seq<State>, steps: seq<Step>, i: nat, w: nat)
    requires Run(states, steps) && i < |states| && w in states[i].waiters
    requires states[i].waiters[w].pc.Parked? && !states[i].waiters[w].woken
    ensures Epoch(states[i].bumps) == Epoch(states[i].waiters[w].observed) || states[i].writer.Bumped?
  {
    RunKeepsInv(states, steps, i);
  }

  /** A waiter that returns epoch e finds a channel value at least as new as publication e, then and later. */
  lemma ReturnSeesPublication(states: seq<State>, steps: seq<Step>, i: nat, j: nat, w: nat)
    requires Run(states, steps) && i <= j < |states| && w in states[i].waiters && states[i].waiters[w].pc.Returned?
    ensures states[i].waiters[w].pc.bumps <= states[j].channel
    ensures Epoch(states[i].waiters[w].pc.bumps) != Epoch(states[i].waiters[w].observed)
  {
    RunKeepsInv(states, steps, i);
    ChannelMonotone(states, steps, i, j);
  }

  /**
   A waiter returns the epoch that it read in the returning step, which differs
   from the one it observed; nothing changes its answer afterwards.
   */
  lemma {:induction false} ReturnsWhatItRead(states: seq<State>, steps: seq<Step>, j: nat, w: nat) returns (m: nat)
    requires Run(states, steps) && j < |states| && w in states[j].waiters && states[j].waiters[w].pc.Returned?
    ensures m < j && Own(steps[m], w) && w in states[m].waiters && !states[m].waiters[w].pc.Returned?
    ensures states[j].waiters[w].pc.bumps == states[m].bumps
    ensures Epoch(states[m].bumps) != Epoch(states[m].waiters[w].observed)
  {
    hide Epoch;
    assert j > 0;
    assert Act(states[j - 1], steps[j - 1], states[j]);
    if w in states[j - 1].waiters && states[j - 1].waiters[w].pc.Returned? {
      m := ReturnsWhatItRead(states, steps, j - 1, w);
    } else {
      m := j - 1;
    }
  }

  lemma {:induction false} ChannelMonotone(states: seq<State>, steps: seq<Step>, i: nat, j: nat)
    requires Run(states, steps) && i <= j < |states|
    ensures states[i].channel <= states[j].channel && states[i].bumps <= states[j].bumps
    decreases j
  {
    hide Epoch, Act, Inv;
    if i == j {
    } else {
      ChannelMonotone(states, steps, i, j - 1);
      RunKeepsInv(states, steps, j - 1);
      ActKeepsInv(states[j - 1], steps[j - 1], states[j]);
    }
  }

  predicate Own(t: Step, w: nat) {
    (t.Check? || t.Subscribe? || t.Recheck? || t.Resume?) && t.w == w
  }

  /** How many of the steps from i up to j are the waiter's own. */
  function OwnSteps(steps: seq<Step>, w: nat, i: nat, j: nat): nat
    requires i <= j <= |steps|
  {
    if i == j then 0 else OwnSteps(steps, w, i, j - 1) + (if Own(steps[j - 1], w) then 1 else 0)
  }

  /** How many of its own steps a waiter is from returning, if its next read lets it. */
  function Rank(pc: WaiterPc): nat {
    match pc
    case Checking => 1
    case Subscribing => 2
    case Rechecking => 1
    case Parked => 2
    case Returned(_) => 0
  }

  lemma RankStep(s: State, t: Step, s': State, w: nat)
    requires Act(s, t, s') && w in s.waiters && (s.waiters[w].pc.Parked? ==> s.waiters[w].woken)
    requires Own(t, w) ==> Epoch(s.bumps) != Epoch(s.waiters[w].observed)
    ensures w in s'.waiters && s'.waiters[w].observed == s.waiters[w].observed
    ensures s'.waiters[w].pc.Parked? ==> s'.waiters[w].woken
    ensures Rank(s'.waiters[w].pc) + (if Own(t, w) then 1 else 0) <= Rank(s.waiters[w].pc)
  {
    if Own(t, w) {
      assert s'.waiters[w] == Advance(s, s.waiters[w]);
    } else {
      assert s'.waiters[w] == s.waiters[w] || s'.waiters[w] == Notified(s.waiters[w]);
    }
  }

  /** Whatever falls between them, every own step brings a waiter that sees a moved epoch nearer to its return. */
  lemma {:induction false} OwnStepsCount(states: seq<State>, steps: seq<Step>, i: nat, j: nat, w: nat)
    requires Run(states, steps) && i <= j < |states| && w in states[i].waiters
    requires states[i].waiters[w].pc.Parked? ==> states[i].waiters[w].woken
    requires forall m :: i <= m < j && Own(steps[m], w) ==>
             Epoch(states[m].bumps) != Epoch(states[i].waiters[w].observed)
    ensures w in states[j].waiters && states[j].waiters[w].observed == states[i].waiters[w].observed
    ensures states[j].waiters[w].pc.Parked? ==> states[j].waiters[w].woken
    ensures Rank(states[j].waiters[w].pc) + OwnSteps(steps, w, i, j) <= Rank(states[i].waiters[w].pc)
    decreases j
  {
    hide Epoch, Act, Rank, Own;
    if i == j {
    } else {
      OwnStepsCount(states, steps, i, j - 1, w);
      RankStep(states[j - 1], steps[j - 1], states[j], w);
    }
  }

  /**
   A waiter whose epoch has moved on between publications returns with its
   second own step at the latest, whatever other waiters and further
   publications do, unless the epoch comes round to the observed one again.
   */
  lemma ReturnsInTwoSteps(states: seq<State>, steps: seq<Step>, i: nat, j: nat, w: nat)
    requires Run(states, steps) && i <= j < |states| && w in states[i].waiters && !states[i].writer.Bumped?
    requires Epoch(states[i].bumps) != Epoch(states[i].waiters[w].observed)
    requires forall m :: i <= m < j && Own(steps[m], w) ==>
             Epoch(states[m].bumps) != Epoch(states[i].waiters[w].observed)
    requires OwnSteps(steps, w, i, j) >= 2
    ensures w in states[j].waiters && states[j].waiters[w].pc.Returned?
  {
    RunKeepsInv(states, steps, i);
    OwnStepsCount(states, steps, i, j, w);
  }

  // ----- What the wrapping counter costs

  ghost predicate NoBump(steps: seq<Step>, i: nat, j: nat) {
    j <= |steps| && forall m :: i <= m < j ==> !steps[m].Bump?
  }

  lemma {:induction false} BumpsStay(states: seq<State>, steps: seq<Step>, i: nat, j: nat)
    requires Run(states, steps) && i <= j < |states| && NoBump(steps, i, j)
    ensures states[j].bumps == states[i].bumps
    decreases j
  {
    if i == j {
    } else {
      BumpsStay(states, steps, i, j - 1);
      assert Act(states[j - 1], steps[j - 1], states[j]);
    }
  }

  lemma {:induction false} StaysWaiting(states: seq<State>, steps: seq<Step>, i: nat, j: nat, w: nat)
    requires Run(states, steps) && i <= j < |states| && NoBump(steps, i, j) && w in states[i].waiters
    requires !states[i].waiters[w].pc.Returned? && Epoch(states[i].bumps) == Epoch(states[i].waiters[w].observed)
    ensures w in states[j].waiters && !states[j].waiters[w].pc.Returned?
    ensures states[j].waiters[w].observed == states[i].waiters[w].observed
    decreases j
  {
    if i == j {
    } else {
      StaysWaiting(states, steps, i, j - 1, w);
      BumpsStay(states, steps, i, j - 1);
      assert Act(states[j - 1], steps[j - 1], states[j]);
    }
  }

  /**
   Between publications a waiter that is behind by k > 0 changes returns, once
   it has taken two own steps, if and only if k is not a multiple of 2^64.
   */
  lemma ReturnsIff(states: seq<State>, steps: seq<Step>, i: nat, j: nat, w: nat)
    requires Run(states, steps) && i <= j < |states| && w in states[i].waiters && !states[i].writer.Bumped?
    requires NoBump(steps, i, j) && OwnSteps(steps, w, i, j) >= 2
    requires !states[i].waiters[w].pc.Returned? && states[i].waiters[w].observed < states[i].bumps
    ensures w in states[j].waiters
    ensures states[j].waiters[w].pc.Returned? <==>
              (states[i].bumps - states[i].waiters[w].observed) % EPOCH_MODULUS != 0
  {
    var observed := states[i].waiters[w].observed;
    SameEpoch(observed, states[i].bumps);
    if Epoch(states[i].bumps) == Epoch(observed) {
      StaysWaiting(states, steps, i, j, w);
    } else {
      forall m | i <= m < j ensures Epoch(states[m].bumps) != Epoch(observed) {
        BumpsStay(states, steps, i, m);
      }
      ReturnsInTwoSteps(states, steps, i, j, w);
    }
  }

  /** A parked, unwoken waiter is behind only by a nonzero multiple of 2^64. */
  lemma MissedOnlyOnWrap(states: seq<State>, steps: seq<Step>, i: nat, w: nat)
    requires Run(states, steps) && i < |states| && w in states[i].waiters && !states[i].writer.Bumped?
    requires states[i].waiters[w].pc.Parked? && !states[i].waiters[w].woken
    requires states[i].waiters[w].observed < states[i].bumps
    ensures (states[i].bumps - states[i].waiters[w].observed) % EPOCH_MODULUS == 0
    ensures states[i].bumps >= states[i].waiters[w].observed + EPOCH_MODULUS
  {
    RunKeepsInv(states, steps, i);
    SameEpoch(states[i].waiters[w].observed, states[i].bumps);
  }

  /** A writer alone can publish any number of times. */
  lemma {:induction false} Publications(n: nat) returns (states: seq<State>, steps: seq<Step>)
    ensures Run(states, steps) && states[|states| - 1] == State(n, n, Holding, map[])
  {
    if n == 0 {
      states, steps := [INITIAL, INITIAL.(writer := Holding)], [Lock];
    } else {
      states, steps := Publications(n - 1);
      states, steps := Extended(states, steps, Replace, State(n - 1, n, Replaced, map[]));
      states, steps := Extended(states, steps, Bump, State(n, n, Bumped, map[]));
      states, steps := Extended(states, steps, Notify, State(n, n, Holding, map[]));
    }
  }

  lemma Extended(states: seq<State>, steps: seq<Step>, t: Step, s: State)
    returns (states': seq<State>, steps': seq<Step>)
    requires Run(states, steps) && Act(states[|states| - 1], t, s)
    ensures states' == states + [s] && steps' == steps + [t] && Run(states', steps')
  {
    hide Act;
    states', steps' := states + [s], steps + [t];
    forall i | 0 <= i < |steps'| ensures Act(states'[i], steps'[i], states'[i + 1]) {
      if i < |steps| {
        assert states'[i] == states[i] && states'[i + 1] == states[i + 1];
      }
    }
  }

  /** And it does happen: after 2^64 publications a waiter that observed none of them parks. */
  lemma WrapHidesChange() returns (states: seq<State>, steps: seq<Step>)
    ensures Run(states, steps)
    ensures var s := states[|states| - 1];
            && !s.writer.Bumped? && 0 in s.waiters
            && s.waiters[0].pc.Parked? && !s.waiters[0].woken && s.waiters[0].observed < s.bumps
  {
    var n := EPOCH_MODULUS;
    states, steps := Publications(n);
    var s := State(n, n, Holding, map[]);
    states, steps := Extended(states, steps, Join(0, 0), s.(waiters := map[0 := Waiter(0, Checking, n, false)]));
    states, steps := Extended(states, steps, Check(0), s.(waiters := map[0 := Waiter(0, Subscribing, n, false)]));
    states, steps := Extended(states, steps, Subscribe(0), s.(waiters := map[0 := Waiter(0, Rechecking, n, false)]));
    states, steps := Extended(states, steps, Recheck(0), s.(waiters := map[0 := Waiter(0, Parked, n, false)]));
  }

  lemma SameEpoch(a: nat, b: nat)
    requires a <= b
    ensures Epoch(a) == Epoch(b) <==> (b - a) % EPOCH_MODULUS == 0
  {
  }

  /** A waiter is never blocked except while parked and not woken: otherwise it has a step that changes it. */
  lemma WaiterNeverStuck(s: State, w: nat) returns (t: Step, s': State)
    requires w in s.waiters && !s.waiters[w].pc.Returned? && (s.waiters[w].pc.Parked? ==> s.waiters[w].woken)
    ensures Own(t, w) && Act(s, t, s') && s'.waiters[w] == Advance(s, s.waiters[w]) != s.waiters[w]
  {
    t := match s.waiters[w].pc
      case Checking => Check(w)
      case Subscribing => Subscribe(w)
      case Rechecking => Recheck(w)
      case Parked => Resume(w)
      case Returned(_) => Lock;
    s' := s.(waiters := s.waiters[w := Advance(s, s.waiters[w])]);
  }

  /** A publication under way is never blocked. */
  lemma WriterNeverStuck(s: State) returns (t: Step, s': State)
    ensures Act(s, t, s')
    ensures match s.writer
            case Unlocked => s'.writer.Holding?
            case Holding => s'.writer.Replaced?
            case Replaced => s'.writer.Bumped?
            case Bumped => s'.writer.Holding? && forall w :: w in s.waiters ==> s'.waiters[w] == Notified(s.waiters[w])
  {
    match s.writer {
      case Unlocked => t, s' := Lock, s.(writer := Holding);
      case Holding => t, s' := Replace, s.(writer := Replaced, channel := s.channel + 1);
      case Replaced => t, s' := Bump, s.(writer := Bumped, bumps := s.bumps + 1);
      case Bumped =>
        t, s' := Notify, s.(writer := Holding, waiters := map w | w in s.waiters :: Notified(s.waiters[w]));
    }
  }
}
