/**
 The lifecycle counters of the diagnostics store.

 A handle names three sets of counters: its generation's, its service's and its
 lane's.  Recording an event bumps the same counters in the three, one atomic
 increment after the other, while other threads record and register as well.
 */
module Diagnostics {
  datatype Counter =
    | ReloadRequested | ReloadExit | Restart | BackoffRestart | RateLimitedRestart | Terminated | NormalExit
    | RecoverableError | Panic | FatalServiceError | ProviderInitError | Shutdown | IsolatedStartupFailure

  datatype ExitKind =
    | NormalExitKind | RecoverableErrorKind | PanicKind | FatalServiceErrorKind | ProviderInitErrorKind
    | ReloadKind | ShutdownKind | IsolatedStartupFailureKind

  datatype Lane = Control | Standard | HighPriority | Isolated

  datatype Record =
    | RecordReloadRequested
    | RecordRestart(usesBackoff: bool, rateLimited: bool)
    | RecordTerminated
    | RecordExit(kind: ExitKind)

  /** The counters one level of a record bumps, in program order. */
  function Bumps(r: Record): seq<Counter> {
    match r
    case RecordReloadRequested => [ReloadRequested]
    case RecordRestart(usesBackoff, rateLimited) =>
      [Restart] + (if usesBackoff then [BackoffRestart] else []) + (if rateLimited then [RateLimitedRestart] else [])
    case RecordTerminated => [Terminated]
    case RecordExit(kind) => [ExitCounter(kind)]
  }

  function ExitCounter(kind: ExitKind): Counter {
    match kind
    case NormalExitKind => NormalExit
    case RecoverableErrorKind => RecoverableError
    case PanicKind => Panic
    case FatalServiceErrorKind => FatalServiceError
    case ProviderInitErrorKind => ProviderInitError
    case ReloadKind => ReloadExit
    case ShutdownKind => Shutdown
    case IsolatedStartupFailureKind => IsolatedStartupFailure
  }

  type Counts = map<Counter, nat>

  function Get(m: Counts, k: Counter): nat { if k in m then m[k] else 0 }

  function Bump(m: Counts, k: Counter): Counts { m[k := Get(m, k) + 1] }

  /** Indices into the lists of all objects ever created; handles keep them alive. */
  datatype Handle = Handle(generation: nat, service: nat, lane: Lane)

  datatype Generation = Generation(service: nat, number: nat, lane: Lane, counts: Counts)

  datatype Service = Service(id: nat, counts: Counts)

  datatype Level = OfGeneration | OfService | OfLane

  datatype Increment = Increment(level: Level, counter: Counter)

  /** A record under way: the increments it has still to make. */
  datatype Call = Call(handle: Handle, todo: seq<Increment>)

  datatype State = State(generations: seq<Generation>, services: seq<Service>, lanes: map<Lane, Counts>,
                         calls: seq<Call>)

  function AtLevel(level: Level, counters: seq<Counter>): seq<Increment> {
    seq(|counters|, i requires 0 <= i < |counters| => Increment(level, counters[i]))
  }

  function Script(r: Record): seq<Increment> {
    AtLevel(OfGeneration, Bumps(r)) + AtLevel(OfService, Bumps(r)) + AtLevel(OfLane, Bumps(r))
  }

  datatype Action =
    | Register(id: nat, number: nat, lane: Lane)
    | Begin(handle: Handle, record: Record)
    | Tick(c: nat)

  predicate Alive(s: State, h: Handle) {
    && h.generation < |s.generations| && h.service < |s.services|
    && s.generations[h.generation].service == h.service && s.generations[h.generation].lane == h.lane
  }

  /** The service's counters, created at its first registration. */
  function WithService(services: seq<Service>, id: nat): seq<Service> {
    if exists i :: 0 <= i < |services| && services[i].id == id then services else services + [Service(id, map[])]
  }

  function LaneOf(lanes: map<Lane, Counts>, l: Lane): Counts { if l in lanes then lanes[l] else map[] }

  function Ticked(s: State, h: Handle, step: Increment): State
    requires Alive(s, h)
  {
    match step.level
    case OfGeneration =>
      var g := s.generations[h.generation];
      s.(generations := s.generations[h.generation := g.(counts := Bump(g.counts, step.counter))])
    case OfService =>
      var v := s.services[h.service];
      s.(services := s.services[h.service := v.(counts := Bump(v.counts, step.counter))])
    case OfLane => s.(lanes := s.lanes[h.lane := Bump(LaneOf(s.lanes, h.lane), step.counter)])
  }

  ghost predicate Act(s: State, a: Action, s': State) {
    match a
    case Register(id, number, lane) =>
      exists service :: 0 <= service < |WithService(s.services, id)| && WithService(s.services, id)[service].id == id
        && s' == s.(services := WithService(s.services, id),
                    generations := s.generations + [Generation(service, number, lane, map[])])
    case Begin(handle, record) => Alive(s, handle) && s' == s.(calls := s.calls + [Call(handle, Script(record))])
    case Tick(c) =>
      && c < |s.calls| && s.calls[c].todo != [] && Alive(s, s.calls[c].handle)
      && var call := s.calls[c];
         s' == Ticked(s, call.handle, call.todo[0]).(calls := s.calls[c := call.(todo := call.todo[1..])])
  }

  // ----- Totals

  function OfGenerations(gs: seq<Generation>, service: nat, k: Counter): nat {
    if gs == [] then 0
    else
      var last := gs[|gs| - 1];
      OfGenerations(gs[..|gs| - 1], service, k) + (if last.service == service then Get(last.counts, k) else 0)
  }

  function OfServices(services: seq<Service>, k: Counter): nat {
    if services == [] then 0
    else OfServices(services[..|services| - 1], k) + Get(services[|services| - 1].counts, k)
  }

  function OfLanes(lanes: map<Lane, Counts>, k: Counter): nat {
    Get(LaneOf(lanes, Control), k) + Get(LaneOf(lanes, Standard), k)
    + Get(LaneOf(lanes, HighPriority), k) + Get(LaneOf(lanes, Isolated), k)
  }

  function Occurrences(todo: seq<Increment>, step: Increment): nat {
    if todo == [] then 0 else (if todo[0] == step then 1 else 0) + Occurrences(todo[1..], step)
  }

  /** Whose records are meant: everyone's, or those through the counters of one object. */
  datatype Who = Everyone | TheGeneration(g: nat) | TheService(v: nat) | TheLane(l: Lane)

  predicate Concerns(h: Handle, who: Who) {
    match who
    case Everyone => true
    case TheGeneration(g) => h.generation == g
    case TheService(v) => h.service == v
    case TheLane(l) => h.lane == l
  }

  /** Increments still to be made by the records under way. */
  function Owed(calls: seq<Call>, who: Who, step: Increment): nat {
    if calls == [] then 0
    else
      var last := calls[|calls| - 1];
      Owed(calls[..|calls| - 1], who, step)
      + (if Concerns(last.handle, who) then Occurrences(last.todo, step) else 0)
  }

  /** The counter of one object. */
  function Value(s: State, who: Who, k: Counter): nat {
    match who
    case Everyone => 0
    case TheGeneration(g) => if g < |s.generations| then Get(s.generations[g].counts, k) else 0
    case TheService(v) => if v < |s.services| then Get(s.services[v].counts, k) else 0
    case TheLane(l) => Get(LaneOf(s.lanes, l), k)
  }

  function LevelOf(who: Who): Level {
    if who.TheGeneration? then OfGeneration else if who.TheService? then OfService else OfLane
  }

  // ----- How one change moves a total

  lemma {:induction false} GenerationsUpdate(gs: seq<Generation>, i: nat, g: Generation, service: nat, k: Counter)
    requires i < |gs| && g.service == gs[i].service
    ensures OfGenerations(gs[i := g], service, k) ==
              OfGenerations(gs, service, k)
              + (if g.service == service then Get(g.counts, k) - Get(gs[i].counts, k) else 0)
  {
    var front := gs[..|gs| - 1];
    if i < |gs| - 1 {
      GenerationsUpdate(front, i, g, service, k);
      assert gs[i := g][..|gs| - 1] == front[i := g];
    } else {
      assert gs[i := g][..|gs| - 1] == front;
    }
  }

  lemma GenerationsAppend(gs: seq<Generation>, g: Generation, service: nat, k: Counter)
    requires g.counts == map[]
    ensures OfGenerations(gs + [g], service, k) == OfGenerations(gs, service, k)
  {
    assert (gs + [g])[..|gs|] == gs;
  }

  lemma {:induction false} ServicesUpdate(services: seq<Service>, i: nat, v: Service, k: Counter)
    requires i < |services|
    ensures OfServices(services[i := v], k) == OfServices(services, k) + Get(v.counts, k) - Get(services[i].counts, k)
  {
    var front := services[..|services| - 1];
    if i < |services| - 1 {
      ServicesUpdate(front, i, v, k);
      assert services[i := v][..|services| - 1] == front[i := v];
    } else {
      assert services[i := v][..|services| - 1] == front;
    }
  }

  lemma {:induction false} OwedUpdate(calls: seq<Call>, c: nat, call: Call, who: Who, step: Increment)
    requires c < |calls| && call.handle == calls[c].handle
    ensures Owed(calls[c := call], who, step) ==
              Owed(calls, who, step)
              + (if Concerns(call.handle, who)
                 then Occurrences(call.todo, step) - Occurrences(calls[c].todo, step) else 0)
  {
    var front := calls[..|calls| - 1];
    if c < |calls| - 1 {
      OwedUpdate(front, c, call, who, step);
      assert calls[c := call][..|calls| - 1] == front[c := call];
    } else {
      assert calls[c := call][..|calls| - 1] == front;
    }
  }

  lemma OwedAppend(calls: seq<Call>, call: Call, who: Who, step: Increment)
    ensures Owed(calls + [call], who, step) ==
              Owed(calls, who, step)
              + (if Concerns(call.handle, who) then Occurrences(call.todo, step) else 0)
  {
    assert (calls + [call])[..|calls|] == calls;
  }

  lemma {:induction false} OccurrencesConcat(a: seq<Increment>, b: seq<Increment>, step: Increment)
    ensures Occurrences(a + b, step) == Occurrences(a, step) + Occurrences(b, step)
  {
    if a == [] {
      assert a + b == b;
    } else {
      OccurrencesConcat(a[1..], b, step);
      assert (a + b)[1..] == a[1..] + b;
    }
  }

  lemma {:induction false} AtLevelOccurrences(level: Level, other: Level, counters: seq<Counter>, k: Counter)
    ensures Occurrences(AtLevel(level, counters), Increment(other, k)) ==
            if level == other then multiset(counters)[k] else 0
  {
    if counters == [] {
    } else {
      AtLevelOccurrences(level, other, counters[1..], k);
      assert AtLevel(level, counters)[1..] == AtLevel(level, counters[1..]);
      assert counters == [counters[0]] + counters[1..];
    }
  }

  // ----- Conservation

  /** Generations and service agree, counting what is still under way. */
  ghost predicate ServiceBalance(s: State, service: nat, k: Counter)
    requires service < |s.services|
  {
    OfGenerations(s.generations, service, k) + Owed(s.calls, TheService(service), Increment(OfGeneration, k)) ==
      Get(s.services[service].counts, k) + Owed(s.calls, TheService(service), Increment(OfService, k))
  }

  ghost predicate LaneBalance(s: State, k: Counter) {
    OfServices(s.services, k) + Owed(s.calls, Everyone, Increment(OfService, k)) ==
      OfLanes(s.lanes, k) + Owed(s.calls, Everyone, Increment(OfLane, k))
  }

  ghost predicate Inv(s: State) {
    && (forall i, j :: 0 <= i < j < |s.services| ==> s.services[i].id != s.services[j].id)
    && (forall g :: 0 <= g < |s.generations| ==> s.generations[g].service < |s.services|)
    && (forall c :: 0 <= c < |s.calls| ==> Alive(s, s.calls[c].handle))
    && (forall service: nat, k :: service < |s.services| ==> ServiceBalance(s, service, k))
    && (forall k :: LaneBalance(s, k))
  }

  ghost predicate Run(states: seq<State>, actions: seq<Action>) {
    && |states| == |actions| + 1
    && states[0] == State([], [], map[], [])
    && forall i :: 0 <= i < |actions| ==> Act(states[i], actions[i], states[i + 1])
  }

  lemma OwedTick(calls: seq<Call>, c: nat, who: Who, step: Increment)
    requires c < |calls| && calls[c].todo != []
    ensures Owed(calls[c := calls[c].(todo := calls[c].todo[1..])], who, step) ==
              Owed(calls, who, step) - (if Concerns(calls[c].handle, who) && calls[c].todo[0] == step then 1 else 0)
  {
    OwedUpdate(calls, c, calls[c].(todo := calls[c].todo[1..]), who, step);
  }

  lemma BumpGet(m: Counts, bumped: Counter, k: Counter)
    ensures Get(Bump(m, bumped), k) == Get(m, k) + (if bumped == k then 1 else 0)
  {
  }

  lemma TickValue(s: State, h: Handle, step: Increment, who: Who, k: Counter)
    requires Alive(s, h) && !who.Everyone?
    ensures Value(Ticked(s, h, step), who, k) ==
              Value(s, who, k) + (if Concerns(h, who) && step == Increment(LevelOf(who), k) then 1 else 0)
  {
    hide Bump, Get;
    BumpGet(s.generations[h.generation].counts, step.counter, k);
    BumpGet(s.services[h.service].counts, step.counter, k);
    BumpGet(LaneOf(s.lanes, h.lane), step.counter, k);
    match step.level {
      case OfGeneration =>
      case OfService =>
      case OfLane =>
    }
  }

  lemma TickGenerations(s: State, h: Handle, step: Increment, service: nat, k: Counter)
    requires Alive(s, h)
    ensures OfGenerations(Ticked(s, h, step).generations, service, k) ==
              OfGenerations(s.generations, service, k)
              + (if h.service == service && step == Increment(OfGeneration, k) then 1 else 0)
  {
    hide Bump, Get;
    var g := s.generations[h.generation];
    BumpGet(g.counts, step.counter, k);
    GenerationsUpdate(s.generations, h.generation, g.(counts := Bump(g.counts, step.counter)), service, k);
  }

  lemma TickServices(s: State, h: Handle, step: Increment, k: Counter)
    requires Alive(s, h)
    ensures OfServices(Ticked(s, h, step).services, k) == OfServices(s.services, k)
            + (if step == Increment(OfService, k) then 1 else 0)
  {
    hide Bump, Get;
    var v := s.services[h.service];
    BumpGet(v.counts, step.counter, k);
    ServicesUpdate(s.services, h.service, v.(counts := Bump(v.counts, step.counter)), k);
  }

  lemma TickLanes(s: State, h: Handle, step: Increment, k: Counter)
    requires Alive(s, h)
    ensures OfLanes(Ticked(s, h, step).lanes, k) == OfLanes(s.lanes, k)
            + (if step == Increment(OfLane, k) then 1 else 0)
  {
    hide Bump, Get, LaneOf, Ticked;
    TickValue(s, h, step, TheLane(Control), k);
    TickValue(s, h, step, TheLane(Standard), k);
    TickValue(s, h, step, TheLane(HighPriority), k);
    TickValue(s, h, step, TheLane(Isolated), k);
  }

  lemma TickBalance(s: State, c: nat, s': State, service: nat, k: Counter)
    requires Act(s, Tick(c), s') && service < |s.services| && ServiceBalance(s, service, k)
    ensures service < |s'.services| && ServiceBalance(s', service, k)
  {
    hide Owed, OfGenerations, Get;
    var h, step := s.calls[c].handle, s.calls[c].todo[0];
    OwedTick(s.calls, c, TheService(service), Increment(OfGeneration, k));
    OwedTick(s.calls, c, TheService(service), Increment(OfService, k));
    TickGenerations(s, h, step, service, k);
    TickValue(s, h, step, TheService(service), k);
  }

  lemma TickLaneBalance(s: State, c: nat, s': State, k: Counter)
    requires Act(s, Tick(c), s') && LaneBalance(s, k)
    ensures LaneBalance(s', k)
  {
    hide Owed, OfLanes, OfServices;
    var h, step := s.calls[c].handle, s.calls[c].todo[0];
    OwedTick(s.calls, c, Everyone, Increment(OfService, k));
    OwedTick(s.calls, c, Everyone, Increment(OfLane, k));
    TickServices(s, h, step, k);
    TickLanes(s, h, step, k);
  }

  lemma TickKeepsInv(s: State, c: nat, s': State)
    requires Inv(s) && Act(s, Tick(c), s')
    ensures Inv(s')
  {
    forall service: nat, k | service < |s'.services| ensures ServiceBalance(s', service, k) {
      TickBalance(s, c, s', service, k);
    }
    forall k ensures LaneBalance(s', k) {
      TickLaneBalance(s, c, s', k);
    }
    forall d | 0 <= d < |s'.calls| ensures Alive(s', s'.calls[d].handle) {
      assert Alive(s, s.calls[d].handle);
    }
  }

  lemma BeginKeepsInv(s: State, handle: Handle, record: Record, s': State)
    requires Inv(s) && Act(s, Begin(handle, record), s')
    ensures Inv(s')
  {
    var call := Call(handle, Script(record));
    forall service: nat, k | service < |s'.services| ensures ServiceBalance(s', service, k) {
      assert ServiceBalance(s, service, k);
      OwedAppend(s.calls, call, TheService(service), Increment(OfGeneration, k));
      OwedAppend(s.calls, call, TheService(service), Increment(OfService, k));
      ScriptOnce(record, OfGeneration, k);
      ScriptOnce(record, OfService, k);
    }
    forall k ensures LaneBalance(s', k) {
      assert LaneBalance(s, k);
      OwedAppend(s.calls, call, Everyone, Increment(OfService, k));
      OwedAppend(s.calls, call, Everyone, Increment(OfLane, k));
      ScriptOnce(record, OfService, k);
      ScriptOnce(record, OfLane, k);
    }
  }

  lemma {:induction false} NoGenerations(gs: seq<Generation>, service: nat, k: Counter)
    requires forall g :: 0 <= g < |gs| ==> gs[g].service != service
    ensures OfGenerations(gs, service, k) == 0
  {
    if gs == [] {
    } else {
      NoGenerations(gs[..|gs| - 1], service, k);
    }
  }

  lemma {:induction false} NobodyOwes(calls: seq<Call>, service: nat, step: Increment)
    requires forall c :: 0 <= c < |calls| ==> calls[c].handle.service != service
    ensures Owed(calls, TheService(service), step) == 0
  {
    if calls == [] {
    } else {
      NobodyOwes(calls[..|calls| - 1], service, step);
    }
  }

  lemma ServicesAppend(services: seq<Service>, v: Service, k: Counter)
    requires v.counts == map[]
    ensures OfServices(services + [v], k) == OfServices(services, k)
  {
    assert (services + [v])[..|services|] == services;
  }

  lemma RegisterBalance(s: State, id: nat, number: nat, lane: Lane, s': State, service: nat, k: Counter)
    requires Inv(s) && Act(s, Register(id, number, lane), s') && service < |s'.services|
    ensures ServiceBalance(s', service, k)
  {
    hide OfGenerations, Owed;
    var g := s'.generations[|s.generations|];
    assert s'.generations == s.generations + [g];
    GenerationsAppend(s.generations, g, service, k);
    if service < |s.services| {
      assert ServiceBalance(s, service, k);
    } else {
      NoGenerations(s.generations, service, k);
      forall c | 0 <= c < |s.calls| ensures s.calls[c].handle.service != service {
        assert Alive(s, s.calls[c].handle);
      }
      NobodyOwes(s.calls, service, Increment(OfGeneration, k));
      NobodyOwes(s.calls, service, Increment(OfService, k));
    }
  }

  lemma RegisterKeepsInv(s: State, id: nat, number: nat, lane: Lane, s': State)
    requires Inv(s) && Act(s, Register(id, number, lane), s')
    ensures Inv(s')
  {
    hide ServiceBalance, OfServices, OfLanes, Owed;
    forall service: nat, k | service < |s'.services| ensures ServiceBalance(s', service, k) {
      RegisterBalance(s, id, number, lane, s', service, k);
    }
    forall k ensures LaneBalance(s', k) {
      assert LaneBalance(s, k);
      ServicesAppend(s.services, Service(id, map[]), k);
    }
    forall c | 0 <= c < |s'.calls| ensures Alive(s', s'.calls[c].handle) {
      assert Alive(s, s.calls[c].handle);
    }
  }

  lemma {:induction false} RunKeepsInv(states: seq<State>, actions: seq<Action>, i: nat)
    requires Run(states, actions) && i < |states|
    ensures Inv(states[i])
  {
    if i == 0 {
    } else {
      RunKeepsInv(states, actions, i - 1);
      var s, s' := states[i - 1], states[i];
      assert Act(s, actions[i - 1], s');
      match actions[i - 1] {
        case Register(id, number, lane) => RegisterKeepsInv(s, id, number, lane, s');
        case Begin(handle, record) => BeginKeepsInv(s, handle, record, s');
        case Tick(c) => TickKeepsInv(s, c, s');
      }
    }
  }

  predicate Quiet(s: State) {
    forall c :: 0 <= c < |s.calls| ==> s.calls[c].todo == []
  }

  lemma {:induction false} NothingOwed(calls: seq<Call>, who: Who, step: Increment)
    requires forall c :: 0 <= c < |calls| ==> calls[c].todo == []
    ensures Owed(calls, who, step) == 0
  {
    if calls == [] {
    } else {
      NothingOwed(calls[..|calls| - 1], who, step);
    }
  }

  /**
   In every run, at every moment when no record is under way: each service's
   counter is the sum over all generations it ever registered, evicted and
   replaced ones included, and the lanes together hold what the services
   together hold.
   */
  lemma Conservation(states: seq<State>, actions: seq<Action>, i: nat, service: nat, k: Counter)
    requires Run(states, actions) && i < |states| && Quiet(states[i])
    ensures service < |states[i].services| ==>
              Get(states[i].services[service].counts, k) == OfGenerations(states[i].generations, service, k)
    ensures OfLanes(states[i].lanes, k) == OfServices(states[i].services, k)
  {
    RunKeepsInv(states, actions, i);
    var s := states[i];
    NothingOwed(s.calls, Everyone, Increment(OfService, k));
    NothingOwed(s.calls, Everyone, Increment(OfLane, k));
    assert LaneBalance(s, k);
    if service < |s.services| {
      NothingOwed(s.calls, TheService(service), Increment(OfGeneration, k));
      NothingOwed(s.calls, TheService(service), Increment(OfService, k));
      assert ServiceBalance(s, service, k);
    }
  }

  /** While records are under way the totals differ by exactly the increments still to come. */
  lemma ConservationUnderway(states: seq<State>, actions: seq<Action>, i: nat, service: nat, k: Counter)
    requires Run(states, actions) && i < |states| && service < |states[i].services|
    ensures ServiceBalance(states[i], service, k) && LaneBalance(states[i], k)
  {
    RunKeepsInv(states, actions, i);
  }

  // ----- Every record counts once

  /** The records a counter is meant to count. */
  predicate Counted(r: Record, k: Counter) {
    match k
    case ReloadRequested => r.RecordReloadRequested?
    case Restart => r.RecordRestart?
    case BackoffRestart => r.RecordRestart? && r.usesBackoff
    case RateLimitedRestart => r.RecordRestart? && r.rateLimited
    case Terminated => r.RecordTerminated?
    case ReloadExit => r == RecordExit(ReloadKind)
    case NormalExit => r == RecordExit(NormalExitKind)
    case RecoverableError => r == RecordExit(RecoverableErrorKind)
    case Panic => r == RecordExit(PanicKind)
    case FatalServiceError => r == RecordExit(FatalServiceErrorKind)
    case ProviderInitError => r == RecordExit(ProviderInitErrorKind)
    case Shutdown => r == RecordExit(ShutdownKind)
    case IsolatedStartupFailure => r == RecordExit(IsolatedStartupFailureKind)
  }

  function Recorded(actions: seq<Action>, who: Who, k: Counter): nat {
    if actions == [] then 0
    else
      Recorded(actions[..|actions| - 1], who, k) + Adds(actions[|actions| - 1], who, k)
  }

  lemma BumpsOnce(r: Record, k: Counter)
    ensures multiset(Bumps(r))[k] == if Counted(r, k) then 1 else 0
  {
    hide Counted;
    match r {
      case RecordReloadRequested => SingleOnce(r, ReloadRequested, k);
      case RecordRestart(usesBackoff, rateLimited) => RestartOnce(usesBackoff, rateLimited, k);
      case RecordTerminated => SingleOnce(r, Terminated, k);
      case RecordExit(kind) => SingleOnce(r, ExitCounter(kind), k);
    }
  }

  lemma SingleOnce(r: Record, only: Counter, k: Counter)
    requires Bumps(r) == [only] && !r.RecordRestart?
    ensures multiset(Bumps(r))[k] == if Counted(r, k) then 1 else 0
  {
    hide Bumps;
    assert Counted(r, k) <==> k == only by {
      SingleCounted(r, only, k);
    }
  }

  lemma SingleCounted(r: Record, only: Counter, k: Counter)
    requires Bumps(r) == [only] && !r.RecordRestart?
    ensures Counted(r, k) <==> k == only
  {
    assert Bumps(r)[0] == only;
    match r {
      case RecordReloadRequested =>
      case RecordTerminated =>
      case RecordExit(kind) =>
    }
  }

  lemma RestartOnce(usesBackoff: bool, rateLimited: bool, k: Counter)
    ensures var r := RecordRestart(usesBackoff, rateLimited);
            multiset(Bumps(r))[k] == if Counted(r, k) then 1 else 0
  {
    var second := if usesBackoff then [BackoffRestart] else [];
    var third := if rateLimited then [RateLimitedRestart] else [];
    assert multiset([Restart] + second + third) == multiset([Restart]) + multiset(second) + multiset(third);
  }

  lemma ScriptOnce(r: Record, level: Level, k: Counter)
    ensures Occurrences(Script(r), Increment(level, k)) == if Counted(r, k) then 1 else 0
  {
    var g, v, l := AtLevel(OfGeneration, Bumps(r)), AtLevel(OfService, Bumps(r)), AtLevel(OfLane, Bumps(r));
    OccurrencesConcat(g + v, l, Increment(level, k));
    OccurrencesConcat(g, v, Increment(level, k));
    AtLevelOccurrences(OfGeneration, level, Bumps(r), k);
    AtLevelOccurrences(OfService, level, Bumps(r), k);
    AtLevelOccurrences(OfLane, level, Bumps(r), k);
    BumpsOnce(r, k);
  }

  ghost predicate Tally(s: State, who: Who, k: Counter, recorded: nat) {
    Value(s, who, k) + Owed(s.calls, who, Increment(LevelOf(who), k)) == recorded
  }

  lemma SameValue(s: State, s': State, who: Who, k: Counter)
    requires s' == s.(calls := s'.calls)
    ensures Value(s', who, k) == Value(s, who, k)
  {
  }

  lemma BeginTallies(s: State, handle: Handle, record: Record, s': State, who: Who, k: Counter, recorded: nat)
    requires Act(s, Begin(handle, record), s') && !who.Everyone? && Tally(s, who, k, recorded)
    ensures Tally(s', who, k, recorded + (if Concerns(handle, who) && Counted(record, k) then 1 else 0))
  {
    hide Owed, Occurrences, Counted, Value, Script;
    OwedAppend(s.calls, Call(handle, Script(record)), who, Increment(LevelOf(who), k));
    ScriptOnce(record, LevelOf(who), k);
    SameValue(s, s', who, k);
  }

  lemma TickTallies(s: State, c: nat, s': State, who: Who, k: Counter, recorded: nat)
    requires Act(s, Tick(c), s') && !who.Everyone? && Tally(s, who, k, recorded)
    ensures Tally(s', who, k, recorded)
  {
    hide Owed, Value, Ticked;
    var h, step := s.calls[c].handle, s.calls[c].todo[0];
    OwedTick(s.calls, c, who, Increment(LevelOf(who), k));
    TickValue(s, h, step, who, k);
    SameValue(Ticked(s, h, step), s', who, k);
  }

  lemma RegisterTallies(s: State, id: nat, number: nat, lane: Lane, s': State, who: Who, k: Counter, recorded: nat)
    requires Act(s, Register(id, number, lane), s') && !who.Everyone? && Tally(s, who, k, recorded)
    ensures Tally(s', who, k, recorded)
  {
    hide Owed;
  }

  /** What one step adds to the records counted. */
  function Adds(a: Action, who: Who, k: Counter): nat {
    if a.Begin? && Concerns(a.handle, who) && Counted(a.record, k) then 1 else 0
  }

  lemma ActTallies(s: State, a: Action, s': State, who: Who, k: Counter, recorded: nat)
    requires Act(s, a, s') && !who.Everyone? && Tally(s, who, k, recorded)
    ensures Tally(s', who, k, recorded + Adds(a, who, k))
  {
    hide Tally, Act, Counted, Concerns;
    match a {
      case Register(id, number, lane) => RegisterTallies(s, id, number, lane, s', who, k, recorded);
      case Begin(handle, record) => BeginTallies(s, handle, record, s', who, k, recorded);
      case Tick(c) => TickTallies(s, c, s', who, k, recorded);
    }
  }

  lemma {:induction false} RunTallies(states: seq<State>, actions: seq<Action>, i: nat, who: Who, k: Counter)
    requires Run(states, actions) && i < |states| && !who.Everyone?
    ensures Tally(states[i], who, k, Recorded(actions[..i], who, k))
  {
    if i == 0 {
    } else {
      hide Tally, Act, Adds;
      RunTallies(states, actions, i - 1, who, k);
      ActTallies(states[i - 1], actions[i - 1], states[i], who, k, Recorded(actions[..i - 1], who, k));
      assert actions[..i][..i - 1] == actions[..i - 1];
    }
  }

  /** When no record is under way, a counter is exactly the number of records it is meant to count. */
  lemma EveryRecordCountsOnce(states: seq<State>, actions: seq<Action>, i: nat, who: Who, k: Counter)
    requires Run(states, actions) && i < |states| && Quiet(states[i]) && !who.Everyone?
    ensures Value(states[i], who, k) == Recorded(actions[..i], who, k)
  {
    RunTallies(states, actions, i, who, k);
    NothingOwed(states[i].calls, who, Increment(LevelOf(who), k));
  }

  /** A registration is never refused, and records can then be made through its handle. */
  lemma CanRegister(s: State, id: nat, number: nat, lane: Lane) returns (h: Handle, s': State)
    ensures Act(s, Register(id, number, lane), s') && Alive(s', h) && h.generation == |s.generations| && h.lane == lane
  {
    var services := WithService(s.services, id);
    if i :| 0 <= i < |s.services| && s.services[i].id == id {
      h := Handle(|s.generations|, i, lane);
    } else {
      h := Handle(|s.generations|, |s.services|, lane);
    }
    s' := s.(services := services, generations := s.generations + [Generation(h.service, number, lane, map[])]);
    assert services[h.service].id == id;
  }

  /** A record under way is never blocked: its next increment can be made, and then fewer remain. */
  lemma NeverStuck(states: seq<State>, actions: seq<Action>, i: nat, c: nat) returns (s': State)
    requires Run(states, actions) && i < |states| && c < |states[i].calls| && states[i].calls[c].todo != []
    ensures Act(states[i], Tick(c), s') && |s'.calls[c].todo| < |states[i].calls[c].todo|
  {
    RunKeepsInv(states, actions, i);
    var s := states[i];
    assert Alive(s, s.calls[c].handle);
    var call := s.calls[c];
    s' := Ticked(s, call.handle, call.todo[0]).(calls := s.calls[c := call.(todo := call.todo[1..])]);
  }

  /** Generation g carries the number and lane given for it and counts towards the service of the given name. */
  predicate Belongs(s: State, g: nat, id: nat, number: nat, lane: Lane) {
    && g < |s.generations| && s.generations[g].number == number && s.generations[g].lane == lane
    && s.generations[g].service < |s.services| && s.services[s.generations[g].service].id == id
  }

  /** A registration appends one generation, which belongs where it was registered ever after. */
  lemma {:induction false} StaysRegistered(states: seq<State>, actions: seq<Action>, i: nat, j: nat)
    requires Run(states, actions) && i < j < |states| && actions[i].Register?
    ensures |states[i + 1].generations| == |states[i].generations| + 1
    ensures Belongs(states[j], |states[i].generations|, actions[i].id, actions[i].number, actions[i].lane)
  {
    assert Act(states[i], actions[i], states[i + 1]);
    if j == i + 1 {
    } else {
      StaysRegistered(states, actions, i, j - 1);
      assert Act(states[j - 1], actions[j - 1], states[j]);
    }
  }
}
