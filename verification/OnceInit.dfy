/**
 First-time resolution of a provider: snapshot resolves fill one once-cell, lock
 resolves another, and each looks at the other's cell before it runs `init`.

 Any number of resolvers interleave.  `time` counts steps; a resolver remembers
 when it last looked at the other cell.  A cell remembers whether an `init` run
 filled it and when.  The value of the n-th successful `init` run is n.
 */
module OnceInit {
  datatype Cell = Empty | Busy(owner: nat) | Filled(value: nat, byInit: bool, looked: nat, at: nat)

  /** Which cell a resolver got its value from. */
  datatype Source = FromSnapshot | FromLock

  datatype Pc =
    | SnapshotStart
    | SnapshotPast(looked: nat)
    | SnapshotInit(looked: nat)
    | LockStart
    | LockPeek
    | LockInit(looked: nat)
    | Done(value: nat, wantedLock: bool, from: Source)
    | Failed

  datatype State = State(time: nat, snapshot: Cell, lock: Cell, inits: nat, resolvers: map<nat, Pc>)

  const INITIAL := State(0, Empty, Empty, 0, map[])

  datatype Step = Join(r: nat, wantsLock: bool) | Go(r: nat, initFails: bool)

  function Put(s: State, r: nat, pc: Pc): State {
    s.(time := s.time + 1, resolvers := s.resolvers[r := pc])
  }

  /** One atomic step of a resolver; waiting on a busy cell is a step that changes nothing. */
  function Progress(s: State, r: nat, pc: Pc, initFails: bool): State {
    match pc
    case SnapshotStart =>
      if s.lock.Filled? then Put(s, r, Done(s.lock.value, false, FromLock)) else Put(s, r, SnapshotPast(s.time))
    case SnapshotPast(looked) =>
      if s.snapshot.Filled? then Put(s, r, Done(s.snapshot.value, false, FromSnapshot))
      else if s.snapshot.Empty? then Put(s, r, SnapshotInit(looked)).(snapshot := Busy(r))
      else s
    case SnapshotInit(looked) =>
      if initFails then Put(s, r, Failed).(snapshot := Empty)
      else
        Put(s, r, Done(s.inits + 1, false, FromSnapshot))
          .(snapshot := Filled(s.inits + 1, true, looked, s.time), inits := s.inits + 1)
    case LockStart =>
      if s.lock.Filled? then Put(s, r, Done(s.lock.value, true, FromLock))
      else if s.lock.Empty? then Put(s, r, LockPeek).(lock := Busy(r))
      else s
    case LockPeek =>
      if s.snapshot.Filled? then
        Put(s, r, Done(s.snapshot.value, true, FromLock)).(lock := Filled(s.snapshot.value, false, s.time, s.time))
      else Put(s, r, LockInit(s.time))
    case LockInit(looked) =>
      if initFails then Put(s, r, Failed).(lock := Empty)
      else
        Put(s, r, Done(s.inits + 1, true, FromLock))
          .(lock := Filled(s.inits + 1, true, looked, s.time), inits := s.inits + 1)
    case Done(_, _, _) => s
    case Failed => s
  }

  ghost predicate Act(s: State, t: Step, s': State) {
    match t
    case Join(r, wantsLock) => r !in s.resolvers && s' == Put(s, r, if wantsLock then LockStart else SnapshotStart)
    case Go(r, initFails) => r in s.resolvers && s' == Progress(s, r, s.resolvers[r], initFails)
  }

  function InitRuns(c: Cell): nat { if c.Filled? && c.byInit then 1 else 0 }

  /**
   A resolver is initializing a cell exactly when it owns it, and looked at the
   other cell while that one was unfilled.
   */
  ghost predicate ResolverOk(s: State, r: nat, pc: Pc) {
    && (pc.SnapshotInit? <==> s.snapshot == Busy(r))
    && (pc.LockPeek? || pc.LockInit? <==> s.lock == Busy(r))
    && (pc.SnapshotInit? || pc.SnapshotPast? ==> pc.looked < s.time && (s.lock.Filled? ==> pc.looked < s.lock.at))
    && (pc.LockInit? ==> pc.looked < s.time && (s.snapshot.Filled? ==> pc.looked < s.snapshot.at))
    && (pc.Done? && pc.from.FromLock? ==> s.lock.Filled? && pc.value == s.lock.value)
    && (pc.Done? && pc.from.FromSnapshot? ==> s.snapshot.Filled? && pc.value == s.snapshot.value && !pc.wantedLock)
  }

  ghost predicate CellsOk(s: State) {
    && s.inits == InitRuns(s.snapshot) + InitRuns(s.lock)
    && (s.snapshot.Filled? ==> s.snapshot.byInit && s.snapshot.looked <= s.snapshot.at < s.time)
    && (s.lock.Filled? ==> s.lock.looked <= s.lock.at < s.time)
    && (s.lock.Filled? && !s.lock.byInit ==>
          s.snapshot.Filled? && s.lock.value == s.snapshot.value && s.snapshot.at < s.lock.looked)
    && (s.snapshot.Filled? && s.lock.Filled? && s.lock.byInit ==>
          s.snapshot.looked < s.lock.at && s.lock.looked < s.snapshot.at)
  }

  ghost predicate Inv(s: State) {
    && (forall r :: r in s.resolvers ==> ResolverOk(s, r, s.resolvers[r]))
    && CellsOk(s) && OwnersKnown(s)
  }

  ghost predicate OwnersKnown(s: State) {
    && (s.snapshot.Busy? ==> s.snapshot.owner in s.resolvers)
    && (s.lock.Busy? ==> s.lock.owner in s.resolvers)
  }

  lemma ProgressKeepsCells(s: State, r: nat, initFails: bool)
    requires CellsOk(s) && OwnersKnown(s) && r in s.resolvers && ResolverOk(s, r, s.resolvers[r])
    ensures CellsOk(Progress(s, r, s.resolvers[r], initFails)) && OwnersKnown(Progress(s, r, s.resolvers[r], initFails))
  {
    match s.resolvers[r] {
      case SnapshotStart =>
      case SnapshotPast(_) =>
      case SnapshotInit(_) =>
      case LockStart =>
      case LockPeek =>
      case LockInit(_) =>
      case Done(_, _, _) =>
      case Failed =>
    }
  }

  lemma ProgressKeepsResolver(s: State, r: nat, initFails: bool, q: nat)
    requires CellsOk(s) && r in s.resolvers && ResolverOk(s, r, s.resolvers[r])
    requires q in s.resolvers && ResolverOk(s, q, s.resolvers[q])
    ensures var s' := Progress(s, r, s.resolvers[r], initFails);
            q in s'.resolvers && ResolverOk(s', q, s'.resolvers[q])
  {
    match s.resolvers[r] {
      case SnapshotStart =>
      case SnapshotPast(_) =>
      case SnapshotInit(_) =>
      case LockStart =>
      case LockPeek =>
      case LockInit(_) =>
      case Done(_, _, _) =>
      case Failed =>
    }
  }

  lemma JoinKeepsInv(s: State, r: nat, wantsLock: bool, s': State)
    requires Inv(s) && Act(s, Join(r, wantsLock), s')
    ensures Inv(s')
  {
    forall q | q in s'.resolvers ensures ResolverOk(s', q, s'.resolvers[q]) {
      assert q != r ==> ResolverOk(s, q, s.resolvers[q]);
    }
  }

  lemma ProgressKeepsNames(s: State, r: nat, initFails: bool)
    requires r in s.resolvers
    ensures Progress(s, r, s.resolvers[r], initFails).resolvers.Keys == s.resolvers.Keys
  {
    match s.resolvers[r] {
      case SnapshotStart =>
      case SnapshotPast(_) =>
      case SnapshotInit(_) =>
      case LockStart =>
      case LockPeek =>
      case LockInit(_) =>
      case Done(_, _, _) =>
      case Failed =>
    }
  }

  lemma ActKeepsInv(s: State, t: Step, s': State)
    requires Inv(s) && Act(s, t, s')
    ensures Inv(s')
  {
    match t {
      case Join(r, wantsLock) => JoinKeepsInv(s, r, wantsLock, s');
      case Go(r, initFails) =>
        GoKeepsInv(s, r, initFails);
    }
  }

  lemma GoKeepsInv(s: State, r: nat, initFails: bool)
    requires Inv(s) && r in s.resolvers
    ensures Inv(Progress(s, r, s.resolvers[r], initFails))
  {
    hide Progress, ResolverOk, CellsOk, OwnersKnown;
    ProgressKeepsCells(s, r, initFails);
    ProgressKeepsNames(s, r, initFails);
    var s' := Progress(s, r, s.resolvers[r], initFails);
    forall q | q in s'.resolvers ensures ResolverOk(s', q, s'.resolvers[q]) {
      assert q in s'.resolvers.Keys;
      ProgressKeepsResolver(s, r, initFails, q);
    }
  }

  ghost predicate Run(states: seq<State>, steps: seq<Step>) {
    && |states| == |steps| + 1 && states[0] == INITIAL
    && forall i :: 0 <= i < |steps| ==> Act(states[i], steps[i], states[i + 1])
  }

  lemma {:induction false} RunKeepsInv(states: seq<State>, steps: seq<Step>, i: nat)
    requires Run(states, steps) && i < |states|
    ensures Inv(states[i])
  {
    if i == 0 {
    } else {
      RunKeepsInv(states, steps, i - 1);
      ActKeepsInv(states[i - 1], steps[i - 1], states[i]);
    }
  }

  /**
   Each cell is filled once, so `init` succeeds at most twice.  It succeeds
   twice exactly when neither resolve saw the other's result: each looked at the
   other's cell before it was filled.
   */
  lemma InitRunsTwiceIff(states: seq<State>, steps: seq<Step>, i: nat)
    requires Run(states, steps) && i < |states|
    ensures var s := states[i];
            && s.inits <= 2
            && (s.inits == 2 <==>
                  s.snapshot.Filled? && s.lock.Filled? && s.snapshot.looked < s.lock.at
                      && s.lock.looked < s.snapshot.at)
            && (s.snapshot.Filled? && s.lock.Filled? && s.inits < 2 ==> s.lock.value == s.snapshot.value)
  {
    RunKeepsInv(states, steps, i);
  }

  /** Everyone gets the value of the cell it resolved from, and whoever wants the lock gets the lock's. */
  lemma ResolversAgree(states: seq<State>, steps: seq<Step>, i: nat, r: nat)
    requires Run(states, steps) && i < |states| && r in states[i].resolvers && states[i].resolvers[r].Done?
    ensures var s, pc := states[i], states[i].resolvers[r];
            && (pc.wantedLock ==> pc.from.FromLock?)
            && match pc.from
               case FromLock => s.lock.Filled? && pc.value == s.lock.value
               case FromSnapshot => s.snapshot.Filled? && pc.value == s.snapshot.value
  {
    RunKeepsInv(states, steps, i);
    assert ResolverOk(states[i], r, states[i].resolvers[r]);
  }

  /** The kind of resolve is the one asked for. */
  lemma {:induction false} WantedIsAsked(states: seq<State>, steps: seq<Step>, i: nat, r: nat) returns (m: nat)
    requires Run(states, steps) && i < |states| && r in states[i].resolvers
    ensures !states[i].resolvers[r].Failed? ==> m < i && steps[m] == Join(r, WantsLock(states[i].resolvers[r]))
  {
    assert i > 0;
    m := i - 1;
    assert Act(states[m], steps[m], states[i]);
    if r in states[m].resolvers {
      WantStays(states[m], steps[m], states[i], r);
      if !states[m].resolvers[r].Failed? {
        m := WantedIsAsked(states, steps, m, r);
      }
    }
  }

  function WantsLock(pc: Pc): bool {
    pc.LockStart? || pc.LockPeek? || pc.LockInit? || (pc.Done? && pc.wantedLock)
  }

  lemma WantStays(s: State, t: Step, s': State, r: nat)
    requires Act(s, t, s') && r in s.resolvers
    ensures r in s'.resolvers
    ensures s'.resolvers[r].Failed?
         || (!s.resolvers[r].Failed? && WantsLock(s'.resolvers[r]) == WantsLock(s.resolvers[r]))
  {
    match s.resolvers[r] {
      case SnapshotStart =>
      case SnapshotPast(_) =>
      case SnapshotInit(_) =>
      case LockStart =>
      case LockPeek =>
      case LockInit(_) =>
      case Done(_, _, _) =>
      case Failed =>
    }
  }

  /** The overlap does happen: a snapshot and a lock resolve that both look before either is done. */
  lemma BothRunInit() returns (states: seq<State>, steps: seq<Step>)
    ensures Run(states, steps) && states[|states| - 1].inits == 2
    ensures var s := states[|states| - 1];
            s.snapshot.Filled? && s.lock.Filled? && s.snapshot.value != s.lock.value
  {
    var s1 := Put(INITIAL, 0, SnapshotStart);
    var s2 := Progress(s1, 0, SnapshotStart, false);
    var s3 := Progress(s2, 0, SnapshotPast(1), false);
    var s4 := Put(s3, 1, LockStart);
    var s5 := Progress(s4, 1, LockStart, false);
    var s6 := Progress(s5, 1, LockPeek, false);
    var s7 := Progress(s6, 0, SnapshotInit(1), false);
    var s8 := Progress(s7, 1, LockInit(5), false);
    states := [INITIAL, s1, s2, s3, s4, s5, s6, s7, s8];
    steps := [Join(0, false), Go(0, false), Go(0, false), Join(1, true), Go(1, false), Go(1, false), Go(0, false),
        Go(1, false)];
    assert Act(INITIAL, steps[0], s1) && Act(s1, steps[1], s2) && Act(s2, steps[2], s3) && Act(s3, steps[3], s4);
    assert Act(s4, steps[4], s5) && Act(s5, steps[5], s6) && Act(s6, steps[6], s7) && Act(s7, steps[7], s8);
  }

  /** While anyone is unresolved, someone has a step that makes progress. */
  lemma NeverStuck(states: seq<State>, steps: seq<Step>, i: nat, r: nat) returns (q: nat)
    requires Run(states, steps) && i < |states| && r in states[i].resolvers
    requires !states[i].resolvers[r].Done? && !states[i].resolvers[r].Failed?
    ensures q in states[i].resolvers
    ensures forall fails :: Progress(states[i], q, states[i].resolvers[q], fails).time == states[i].time + 1
  {
    RunKeepsInv(states, steps, i);
    var s := states[i];
    q := r;
    if s.resolvers[r].SnapshotPast? && s.snapshot.Busy? {
      q := s.snapshot.owner;
      assert ResolverOk(s, q, s.resolvers[q]);
    } else if s.resolvers[r].LockStart? && s.lock.Busy? {
      q := s.lock.owner;
      assert ResolverOk(s, q, s.resolvers[q]);
    }
  }
}
