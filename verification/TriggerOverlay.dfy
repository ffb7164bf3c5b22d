/**
 What a trigger's policies may contain: the scaling policy and its two ways of
 being built, and the shape of a temporary policy overlay.
 */
module TriggerPolicies {
  import opened Wrappers
  import opened Backoff

  datatype ScalingPolicy = ScalingPolicy(initial: nat, max: nat, factor: nat, threshold: nat, cooldown: Duration)

  const DEFAULT_SCALING := ScalingPolicy(1, 64, 2, 5, 30.0)

  predicate WellFormed(p: ScalingPolicy) {
    1 <= p.initial <= p.max && p.factor >= 2 && p.threshold >= 1
  }

  datatype ScalingError =
    | InitialConcurrencyZero
    | MaxConcurrencyZero
    | ScaleFactorTooSmall(requested: nat)
    | ScaleThresholdZero
    | InitialConcurrencyExceedsMax(initial: nat, max: nat)

  datatype Checked = Accepted(policy: ScalingPolicy) | Refused(error: ScalingError)

  function TryNew(p: ScalingPolicy): (r: Checked)
    ensures r.Accepted? <==> WellFormed(p)
    ensures r.Accepted? ==> r.policy == p
  {
    if p.initial == 0 then Refused(InitialConcurrencyZero)
    else if p.max == 0 then Refused(MaxConcurrencyZero)
    else if p.factor < 2 then Refused(ScaleFactorTooSmall(p.factor))
    else if p.threshold == 0 then Refused(ScaleThresholdZero)
    else if p.initial > p.max then Refused(InitialConcurrencyExceedsMax(p.initial, p.max))
    else Accepted(p)
  }

  datatype Setting = Initial(n: nat) | Maximum(n: nat) | Factor(n: nat) | Threshold(n: nat) | Cooldown(d: Duration)

  function AtLeast(n: nat, low: nat): (r: nat)
    ensures r >= n && r >= low && (r == n || r == low)
  {
    if n >= low then n else low
  }

  function Set(p: ScalingPolicy, s: Setting): ScalingPolicy {
    match s
    case Initial(n) => p.(initial := AtLeast(n, 1))
    case Maximum(n) => p.(max := AtLeast(n, 1))
    case Factor(n) => p.(factor := AtLeast(n, 2))
    case Threshold(n) => p.(threshold := AtLeast(n, 1))
    case Cooldown(d) => p.(cooldown := d)
  }

  /** The builder after any calls of its setters, in any order. */
  function Configured(settings: seq<Setting>): ScalingPolicy {
    if settings == [] then DEFAULT_SCALING
    else Set(Configured(settings[..|settings| - 1]), settings[|settings| - 1])
  }

  function Build(p: ScalingPolicy): ScalingPolicy {
    p.(initial := if p.initial <= p.max then p.initial else p.max)
  }

  /** Whatever the builder is told, strict construction accepts what it builds, unchanged. */
  lemma {:induction false} BuilderAccepted(settings: seq<Setting>)
    ensures WellFormed(Build(Configured(settings)))
    ensures TryNew(Build(Configured(settings))) == Accepted(Build(Configured(settings)))
  {
    if settings == [] {
    } else {
      BuilderAccepted(settings[..|settings| - 1]);
    }
  }

  predicate SameKind(a: Setting, b: Setting) {
    || (a.Initial? && b.Initial?) || (a.Maximum? && b.Maximum?) || (a.Factor? && b.Factor?)
    || (a.Threshold? && b.Threshold?) || (a.Cooldown? && b.Cooldown?)
  }

  /** The field of p that a setting is about holds the setting's value, raised to the least allowed one. */
  predicate Holds(p: ScalingPolicy, s: Setting) {
    match s
    case Initial(n) => p.initial == AtLeast(n, 1)
    case Maximum(n) => p.max == AtLeast(n, 1)
    case Factor(n) => p.factor == AtLeast(n, 2)
    case Threshold(n) => p.threshold == AtLeast(n, 1)
    case Cooldown(d) => p.cooldown == d
  }

  /** The last setting of each kind wins. */
  lemma {:induction false} LastSettingWins(settings: seq<Setting>, i: nat)
    requires i < |settings| && forall j :: i < j < |settings| ==> !SameKind(settings[i], settings[j])
    ensures Holds(Configured(settings), settings[i])
  {
    if i == |settings| - 1 {
    } else {
      LastSettingWins(settings[..|settings| - 1], i);
    }
  }

  /** What nobody sets keeps its default. */
  lemma {:induction false} UnsetKeepsDefault(settings: seq<Setting>, s: Setting)
    requires s in {Initial(1), Maximum(64), Factor(2), Threshold(5), Cooldown(30.0)}
    requires forall j :: 0 <= j < |settings| ==> !SameKind(s, settings[j])
    ensures Holds(Configured(settings), s)
  {
    if settings == [] {
    } else {
      UnsetKeepsDefault(settings[..|settings| - 1], s);
    }
  }

  /** Building only lowers an initial concurrency that exceeds the maximum. */
  lemma BuildCaps(p: ScalingPolicy)
    ensures var b := Build(p);
            && b.max == p.max && b.factor == p.factor && b.threshold == p.threshold && b.cooldown == p.cooldown
            && b.initial <= p.initial && b.initial <= p.max && (b.initial == p.initial || b.initial == p.max)
  {
  }

  /** Strict construction names the first thing wrong. */
  lemma FirstRefusal(p: ScalingPolicy)
    ensures TryNew(p) == Refused(InitialConcurrencyZero) <==> p.initial == 0
    ensures TryNew(p) == Refused(MaxConcurrencyZero) <==> p.initial > 0 && p.max == 0
    ensures TryNew(p) == Refused(ScaleFactorTooSmall(p.factor)) <==> p.initial > 0 && p.max > 0 && p.factor < 2
    ensures TryNew(p) == Refused(ScaleThresholdZero) <==>
              p.initial > 0 && p.max > 0 && p.factor >= 2 && p.threshold == 0
    ensures TryNew(p) == Refused(InitialConcurrencyExceedsMax(p.initial, p.max)) <==>
              p.initial > p.max > 0 && p.factor >= 2 && p.threshold > 0
  {
  }

  datatype BasePolicy = BasePolicy(restart: RestartPolicy, scaling: Option<ScalingPolicy>) {
    function MaxConcurrency(): nat { if scaling.Some? then scaling.value.max else 1 }

    function InitialConcurrency(): nat { if scaling.Some? then scaling.value.initial else 1 }

    predicate Valid() { scaling.Some? ==> WellFormed(scaling.value) }
  }

  datatype Overlay = Overlay(
    reason: string,
    ttl: Duration,
    concurrency: Option<nat>,
    dispatchTimeout: Option<Duration>,
    retry: Option<RestartPolicy>)

  datatype OverlayError =
    | EmptyReason | TtlIsZero | EmptyOverlay | ConcurrencyLimitZero | DispatchTimeoutZero
    | InvalidRetryMultiplier | InvalidRetryJitter
    | ConcurrencyLimitExceedsMax(requested: nat, max: nat)
    | TriggerOverlayUnavailable

  /** The Unicode property White_Space */
  predicate White(c: char) {
    var n := c as int;
    || 0x09 <= n <= 0x0D || n == 0x20 || n == 0x85 || n == 0xA0 || n == 0x1680 || 0x2000 <= n <= 0x200A
    || n == 0x2028 || n == 0x2029 || n == 0x202F || n == 0x205F || n == 0x3000
  }

  predicate Blank(s: string) {
    forall i :: 0 <= i < |s| ==> White(s[i])
  }

  function CheckReason(reason: string): Option<OverlayError> {
    if Blank(reason) then Some(EmptyReason) else None
  }

  function CheckRetry(p: RestartPolicy): Option<OverlayError> {
    if p.multiplier.NotFinite? || p.multiplier.value <= 0.0 then Some(InvalidRetryMultiplier)
    else if p.jitterFactor.NotFinite? || !(0.0 <= p.jitterFactor.value <= 1.0) then Some(InvalidRetryJitter)
    else None
  }

  /** The overlay asks for something, for a while, and for nothing that is zero or out of range. */
  predicate WellShaped(o: Overlay) {
    && !Blank(o.reason) && o.ttl > 0.0
    && (o.concurrency.Some? || o.dispatchTimeout.Some? || o.retry.Some?)
    && (o.concurrency.Some? ==> o.concurrency.value >= 1)
    && (o.dispatchTimeout.Some? ==> o.dispatchTimeout.value > 0.0)
    && (o.retry.Some? ==> Sane(o.retry.value))
  }

  /** The numbers of the policy are used as they stand, without being replaced by defaults. */
  predicate Sane(p: RestartPolicy) {
    p.multiplier == Finite(p.Factor()) && p.jitterFactor == Finite(p.Spread())
  }

  function ValidateShape(o: Overlay): (e: Option<OverlayError>)
    ensures e.None? <==> WellShaped(o)
  {
    if CheckReason(o.reason).Some? then CheckReason(o.reason)
    else if o.ttl == 0.0 then Some(TtlIsZero)
    else if o.concurrency.None? && o.dispatchTimeout.None? && o.retry.None? then Some(EmptyOverlay)
    else if o.concurrency == Some(0) then Some(ConcurrencyLimitZero)
    else if o.dispatchTimeout.Some? && o.dispatchTimeout.value == 0.0 then Some(DispatchTimeoutZero)
    else if o.retry.Some? then CheckRetry(o.retry.value)
    else None
  }

  predicate Timely(o: Overlay) { !Blank(o.reason) && o.ttl > 0.0 }

  predicate Countable(o: Overlay) { Timely(o) && o.concurrency != Some(0) && o.dispatchTimeout != Some(0.0) }

  /** The shape check names the first thing wrong. */
  lemma FirstFault(o: Overlay)
    ensures ValidateShape(o) == Some(EmptyReason) <==> Blank(o.reason)
    ensures ValidateShape(o) == Some(TtlIsZero) <==> !Blank(o.reason) && o.ttl == 0.0
    ensures ValidateShape(o) == Some(EmptyOverlay) <==>
              Timely(o) && o.concurrency.None? && o.dispatchTimeout.None? && o.retry.None?
    ensures ValidateShape(o) == Some(ConcurrencyLimitZero) <==> Timely(o) && o.concurrency == Some(0)
    ensures ValidateShape(o) == Some(DispatchTimeoutZero) <==>
              Timely(o) && o.concurrency != Some(0) && o.dispatchTimeout == Some(0.0)
    ensures ValidateShape(o) == Some(InvalidRetryMultiplier) <==>
              Countable(o) && o.retry.Some? && o.retry.value.multiplier != Finite(o.retry.value.Factor())
    ensures ValidateShape(o) == Some(InvalidRetryJitter) <==>
              && Countable(o) && o.retry.Some? && o.retry.value.multiplier == Finite(o.retry.value.Factor())
              && o.retry.value.jitterFactor != Finite(o.retry.value.Spread())
  {
  }

  /** The bounds check against the base policy that follows the shape check. */
  function ValidateBounds(base: BasePolicy, o: Overlay): Option<OverlayError> {
    if o.concurrency.Some? && o.concurrency.value > base.MaxConcurrency()
    then Some(ConcurrencyLimitExceedsMax(o.concurrency.value, base.MaxConcurrency()))
    else None
  }

  predicate Acceptable(base: BasePolicy, o: Overlay) {
    ValidateShape(o).None? && ValidateBounds(base, o).None?
  }
}

/**
 One trigger's overlay state beside its permit ledger.

 Requests, clears and expiry change the overlay under its own lock; a reconcile
 first settles, under that lock, which limit it wants, and then moves the ledger
 in the atomic steps of `Permits`, between which anything else may happen.
 */
module TriggerOverlay {
  import opened Wrappers
  import opened TriggerPolicies
  import opened Backoff
  import Permits

  datatype Active = Active(overlay: Overlay, expiresAt: real)

  datatype Trigger = Trigger(base: BasePolicy, active: Option<Active>, restore: bool, ledger: Permits.Ledger) {
    /** The concurrency limit of the overlay in place, expired or not. */
    function Override(): Option<nat> {
      if active.Some? then active.value.overlay.concurrency else None
    }

    /** The concurrency limit in force at a given time. */
    function LiveOverride(now: real): Option<nat> {
      if active.Some? && now < active.value.expiresAt then active.value.overlay.concurrency else None
    }
  }

  function Requested(t: Trigger, o: Overlay, now: real): Trigger {
    t.(active := Some(Active(o, now + o.ttl)), restore := t.Override().Some? && o.concurrency.None?)
  }

  function Cleared(t: Trigger): Trigger {
    t.(active := None, restore := t.Override().Some? || t.restore)
  }

  /** The overlay is dropped once its time has come. */
  function Pruned(t: Trigger, now: real): Trigger {
    if t.active.None? || now < t.active.value.expiresAt then t else Cleared(t)
  }

  function Desired(t: Trigger, now: real, baseTarget: nat): nat {
    var p := Pruned(t, now);
    if p.Override().Some? then p.Override().value
    else if p.restore then p.base.InitialConcurrency()
    else baseTarget
  }

  /** The overlay half of a reconcile: expiry, and the restore flag used up. */
  function Decided(t: Trigger, now: real): Trigger {
    Pruned(t, now).(restore := false)
  }

  datatype Event =
    | Request(overlay: Overlay, now: real)
    | Clear
    | Prune(now: real)
    | Start(now: real, baseTarget: nat)
    | Permit(action: Permits.Action)

  ghost predicate Act(t: Trigger, e: Event, t': Trigger) {
    match e
    case Request(o, now) => Acceptable(t.base, o) && t' == Requested(t, o, now)
    case Clear => t' == Cleared(t)
    case Prune(now) => t' == Pruned(t, now)
    case Start(now, baseTarget) =>
      && Permits.Act(t.ledger, Permits.Begin(Desired(t, now, baseTarget)), t'.ledger)
      && t' == Decided(t, now).(ledger := t'.ledger)
    case Permit(action) => !action.Begin? && Permits.Act(t.ledger, action, t'.ledger) && t' == t.(ledger := t'.ledger)
  }

  ghost predicate Inv(t: Trigger) {
    && t.base.Valid()
    && Permits.Inv(t.ledger) && t.ledger.max == t.base.MaxConcurrency()
    && (t.Override().Some? ==> 1 <= t.Override().value <= t.ledger.max)
  }

  ghost predicate Registered(t: Trigger) {
    Inv(t) && t.active.None? && !t.restore && t.ledger.phase.Resting?
  }

  ghost predicate Run(states: seq<Trigger>, events: seq<Event>) {
    && |states| == |events| + 1
    && Registered(states[0])
    && forall i :: 0 <= i < |events| ==> Act(states[i], events[i], states[i + 1])
  }

  lemma ActKeepsInv(t: Trigger, e: Event, t': Trigger)
    requires Inv(t) && Act(t, e, t')
    ensures Inv(t') && t'.base == t.base
  {
    match e {
      case Request(_, _) =>
      case Clear =>
      case Prune(_) =>
      case Start(now, baseTarget) =>
        Permits.ActKeepsInv(t.ledger, Permits.Begin(Desired(t, now, baseTarget)), t'.ledger);
      case Permit(action) => Permits.ActKeepsInv(t.ledger, action, t'.ledger);
    }
  }

  lemma {:induction false} RunKeepsInv(states: seq<Trigger>, events: seq<Event>, i: nat)
    requires Run(states, events) && i < |states|
    ensures Inv(states[i]) && states[i].base == states[0].base
  {
    if i == 0 {
    } else {
      RunKeepsInv(states, events, i - 1);
      ActKeepsInv(states[i - 1], events[i - 1], states[i]);
    }
  }

  /** Every run, seen from its ledger, is a run of the permit protocol. */
  function Action(t: Trigger, e: Event): Permits.Action {
    match e
    case Start(now, baseTarget) => Permits.Begin(Desired(t, now, baseTarget))
    case Permit(action) => action
    case _ => Permits.Idle
  }

  function Ledgers(states: seq<Trigger>): seq<Permits.Ledger> {
    seq(|states|, i requires 0 <= i < |states| => states[i].ledger)
  }

  function Actions(states: seq<Trigger>, events: seq<Event>): seq<Permits.Action>
    requires |events| <= |states|
  {
    seq(|events|, i requires 0 <= i < |events| => Action(states[i], events[i]))
  }

  lemma LedgerRun(states: seq<Trigger>, events: seq<Event>)
    requires Run(states, events)
    ensures Permits.Run(Ledgers(states), Actions(states, events))
  {
    var ledgers, actions := Ledgers(states), Actions(states, events);
    forall i | 0 <= i < |actions| ensures Permits.Act(ledgers[i], actions[i], ledgers[i + 1]) {
      assert Act(states[i], events[i], states[i + 1]);
    }
  }

  // ----- Which overlay is in place

  function Expiry(e: Event): real
    requires e.Request?
  {
    e.now + e.overlay.ttl
  }

  /** Nothing since the accepted request at e has replaced or cleared its overlay, or noticed that its time was up. */
  ghost predicate InPlace(events: seq<Event>, e: nat, k: nat) {
    && e < k <= |events| && events[e].Request?
    && forall m :: e < m < k ==>
         match events[m]
         case Request(_, _) => false
         case Clear => false
         case Prune(now) => now < Expiry(events[e])
         case Start(now, _) => now < Expiry(events[e])
         case Permit(_) => true
  }

  /** In every run the overlay in place is the one of the last request accepted, as it was requested, until it ends. */
  lemma {:induction false} ActiveIff(states: seq<Trigger>, events: seq<Event>, k: nat)
    requires Run(states, events) && k < |states|
    ensures states[k].active.Some? <==> exists e :: InPlace(events, e, k)
    ensures forall e: nat ::
              InPlace(events, e, k) ==> states[k].active == Some(Active(events[e].overlay, Expiry(events[e])))
  {
    if k == 0 {
    } else {
      ActiveIff(states, events, k - 1);
      assert Act(states[k - 1], events[k - 1], states[k]);
      if states[k].active.Some? {
        if events[k - 1].Request? {
          assert InPlace(events, k - 1, k);
        } else {
          var e :| InPlace(events, e, k - 1);
          assert InPlace(events, e, k);
        }
      }
      forall e: nat | InPlace(events, e, k)
        ensures states[k].active == Some(Active(events[e].overlay, Expiry(events[e])))
      {
        if e < k - 1 {
          assert InPlace(events, e, k - 1);
        }
      }
    }
  }

  /** The accepted request at e asks for a concurrency limit and is still in force at the event i. */
  ghost predicate Rules(events: seq<Event>, e: nat, i: nat) {
    && i < |events| && events[i].Start? && InPlace(events, e, i)
    && events[e].overlay.concurrency.Some? && events[i].now < Expiry(events[e])
  }

  // ----- What the restore flag remembers

  /** The event took a concurrency override out of force without being a reconcile. */
  ghost predicate Ends(states: seq<Trigger>, events: seq<Event>, e: nat) {
    && e < |events| && e + 1 < |states|
    && !events[e].Start? && states[e].Override().Some? && states[e + 1].Override().None?
  }

  /** No request was accepted and no reconcile settled strictly between two positions. */
  ghost predicate Quiet(events: seq<Event>, e: nat, k: nat) {
    k <= |events| && forall m :: e < m < k ==> !events[m].Request? && !events[m].Start?
  }

  ghost predicate Outstanding(states: seq<Trigger>, events: seq<Event>, e: nat, k: nat) {
    e < k && Ends(states, events, e) && Quiet(events, e, k)
  }

  /** The flag is up exactly while the end of some override is still outstanding. */
  lemma {:induction false} FlagIff(states: seq<Trigger>, events: seq<Event>, k: nat)
    requires Run(states, events) && k < |states|
    ensures states[k].restore <==> exists e :: Outstanding(states, events, e, k)
  {
    if k == 0 {
    } else {
      FlagIff(states, events, k - 1);
      var before, event, after := states[k - 1], events[k - 1], states[k];
      assert Act(before, event, after);
      if after.restore {
        if !event.Request? && before.restore {
          var e :| Outstanding(states, events, e, k - 1);
          assert Outstanding(states, events, e, k);
        } else {
          assert Outstanding(states, events, k - 1, k);
        }
      }
      forall e: nat | Outstanding(states, events, e, k) ensures after.restore {
        if e < k - 1 {
          assert Outstanding(states, events, e, k - 1);
        }
      }
    }
  }

  /** The limit a reconcile settling at `i` aims for, after clamping. */
  function Target(states: seq<Trigger>, events: seq<Event>, i: nat): nat
    requires i < |events| && i < |states| && events[i].Start?
  {
    Permits.Clamp(Desired(states[i], events[i].now, events[i].baseTarget), states[0].base.MaxConcurrency())
  }

  /** The override in place has just expired, or the end of an earlier one is outstanding. */
  ghost predicate OwesRestore(states: seq<Trigger>, events: seq<Event>, i: nat)
    requires i < |events| && i < |states|
  {
    states[i].Override().Some? || exists e :: Outstanding(states, events, e, i)
  }

  /**
   In every run, what a reconcile aims for: the limit of the request in force,
   exactly as it was requested, else the initial concurrency if a restore is owed,
   else the caller's value clamped.  Clamping never alters the first two.
   */
  lemma ReconcileTarget(states: seq<Trigger>, events: seq<Event>, i: nat)
    requires Run(states, events) && i < |events| && events[i].Start?
    ensures states[i + 1].ledger.phase == Permits.Clamped(Target(states, events, i))
    ensures forall e: nat :: Rules(events, e, i) ==> Target(states, events, i) == events[e].overlay.concurrency.value
    ensures states[i].LiveOverride(events[i].now).Some? <==> exists e :: Rules(events, e, i)
    ensures var live, base := states[i].LiveOverride(events[i].now), states[0].base;
            Target(states, events, i) ==
              if live.Some? then live.value
              else if OwesRestore(states, events, i) then base.InitialConcurrency()
              else Permits.Clamp(events[i].baseTarget, base.MaxConcurrency())
  {
    RunKeepsInv(states, events, i);
    FlagIff(states, events, i);
    ActiveIff(states, events, i);
    assert Act(states[i], events[i], states[i + 1]);
    if states[i].LiveOverride(events[i].now).Some? {
      var e :| InPlace(events, e, i);
      assert Rules(events, e, i);
    }
  }

  /** No later end of an override intervenes. */
  ghost predicate LastEnd(states: seq<Trigger>, events: seq<Event>, e: nat, j: nat) {
    e < j && Ends(states, events, e) && forall m :: e < m < j ==> !Ends(states, events, m)
  }

  ghost predicate NoStart(events: seq<Event>, e: nat, j: nat) {
    j <= |events| && forall m :: e < m < j ==> !events[m].Start?
  }

  ghost predicate NoRequest(events: seq<Event>, e: nat, j: nat) {
    j <= |events| && forall m :: e < m < j ==> !events[m].Request?
  }

  /**
   When the end of an override leads back to the base: the next reconcile
   aims for the initial concurrency if and only if no request was accepted
   in between, or the caller asks for that very limit anyway.
   */
  lemma RestoreIff(states: seq<Trigger>, events: seq<Event>, e: nat, j: nat)
    requires Run(states, events) && j < |events| && events[j].Start?
    requires LastEnd(states, events, e, j) && NoStart(events, e, j) && states[j].Override().None?
    ensures var base := states[0].base;
            Target(states, events, j) == base.InitialConcurrency() <==>
              (NoRequest(events, e, j)
                  || Permits.Clamp(events[j].baseTarget, base.MaxConcurrency()) == base.InitialConcurrency())
  {
    ReconcileTarget(states, events, j);
    if NoRequest(events, e, j) {
      assert Outstanding(states, events, e, j);
    } else {
      var m :| e < m < j && events[m].Request?;
      forall d: nat | d < j ensures !Outstanding(states, events, d, j) {
        if d <= e {
          assert !Quiet(events, d, j);
        } else {
          assert !Ends(states, events, d);
        }
      }
    }
  }

  /** A request accepted after the end of an override makes the base be forgotten. */
  lemma LostRestore() returns (states: seq<Trigger>, events: seq<Event>)
    ensures Run(states, events) && |events| == 4 && events[3].Start?
    ensures LastEnd(states, events, 1, 3) && NoStart(events, 1, 3) && states[3].Override().None?
    ensures states[0].base.InitialConcurrency() == 1 && Target(states, events, 3) == 4
  {
    var policy := RestartPolicy(1.0, 1.0, Finite(1.0), Finite(0.0), 1.0, 1.0);
    var base := BasePolicy(policy, Some(ScalingPolicy(1, 4, 2, 1, 1.0)));
    var wide := Overlay("r", 1.0, Some(4), None, None);
    var brief := Overlay("r", 1.0, None, Some(1.0), None);
    var t0 := Trigger(base, None, false, Permits.Ledger(4, 1, 1, 0, Permits.Resting));
    var t1 := Requested(t0, wide, 0.0);
    var t2 := Cleared(t1);
    var t3 := Requested(t2, brief, 0.0);
    var t4 := Decided(t3, 0.0).(ledger := t3.ledger.(phase := Permits.Clamped(4)));
    assert !Blank("r") by {
      assert !White("r"[0]);
    }
    states, events := [t0, t1, t2, t3, t4], [Request(wide, 0.0), Clear, Request(brief, 0.0), Start(0.0, 4)];
    assert Act(t0, events[0], t1) && Act(t1, events[1], t2) && Act(t2, events[2], t3) && Act(t3, events[3], t4);
    assert Ends(states, events, 1);
  }

  /** The restore happens once: with no override ending since the last reconcile, the caller decides. */
  lemma RestoreOnce(states: seq<Trigger>, events: seq<Event>, i: nat, j: nat)
    requires Run(states, events) && i < j < |events| && events[i].Start? && events[j].Start?
    requires (forall m :: i < m < j ==> !Ends(states, events, m)) && states[j].Override().None?
    ensures Target(states, events, j) == Permits.Clamp(events[j].baseTarget, states[0].base.MaxConcurrency())
  {
    ReconcileTarget(states, events, j);
    forall d: nat | d < j ensures !Outstanding(states, events, d, j) {
      if d < i {
        assert !Quiet(events, d, j);
      } else {
        assert !Ends(states, events, d);
      }
    }
  }

  /** Without a scaling policy a trigger never has more than one permit. */
  lemma NoScalingMeansOne(states: seq<Trigger>, events: seq<Event>, i: nat)
    requires Run(states, events) && i < |states| && states[0].base.scaling.None?
    ensures states[i].ledger.limit == 1 && states[i].ledger.inFlight <= 1
  {
    RunKeepsInv(states, events, i);
  }

  // ----- Where a whole reconcile ends

  /** The reconcile settling at `i` comes to rest at `j`. */
  ghost predicate Reconcile(states: seq<Trigger>, events: seq<Event>, i: nat, j: nat) {
    && i < |events| && events[i].Start?
    && i + 1 < j < |states| && states[j].ledger.phase.Resting?
    && forall m :: i < m < j ==> !states[m].ledger.phase.Resting?
  }

  ghost predicate NoDispatch(events: seq<Event>, i: nat, j: nat) {
    j <= |events| && forall m :: i <= m < j ==> events[m].Permit? ==> !Permits.Dispatch(events[m].action)
  }

  /**
   Whatever dispatches, requests and clears do meanwhile, the limit ends at or
   above the target, never below running work.
   */
  lemma Outcome(states: seq<Trigger>, events: seq<Event>, i: nat, j: nat)
    requires Run(states, events) && Reconcile(states, events, i, j)
    ensures var target, before, after := Target(states, events, i), states[i].ledger.limit, states[j].ledger.limit;
            && (before <= target ==> after == target)
            && (target < before ==> target <= after <= before)
            && states[j].ledger.inFlight <= after
  {
    var ledgers, actions := Ledgers(states), Actions(states, events);
    LedgerRun(states, events);
    RunKeepsInv(states, events, 0);
    assert Permits.Within(ledgers, i, j - 1);
    Permits.ReconcileOutcome(ledgers, actions, i, j);
  }

  lemma OutcomeUndisturbed(states: seq<Trigger>, events: seq<Event>, i: nat, j: nat)
    requires Run(states, events) && Reconcile(states, events, i, j) && NoDispatch(events, i, j)
    ensures states[j].ledger.limit ==
              Permits.ReconciledLimit(states[i].ledger.limit, states[i].ledger.inFlight, Target(states, events, i))
  {
    var ledgers, actions := Ledgers(states), Actions(states, events);
    LedgerRun(states, events);
    RunKeepsInv(states, events, 0);
    assert Permits.Within(ledgers, i, j - 1);
    assert Permits.Undisturbed(actions, i, j);
    Permits.Convergence(ledgers, actions, i, j);
  }

  /** After a restore without dispatches the limit is the initial concurrency, or above it only by work in flight. */
  lemma RestoreReached(states: seq<Trigger>, events: seq<Event>, i: nat, j: nat)
    requires Run(states, events) && Reconcile(states, events, i, j) && NoDispatch(events, i, j)
    requires states[i].LiveOverride(events[i].now).None? && OwesRestore(states, events, i)
    ensures var initial := match states[0].base.scaling case Some(policy) => policy.initial case None => 1;
            states[j].ledger.limit == Permits.Max(initial, states[i].ledger.inFlight)
  {
    ReconcileTarget(states, events, i);
    OutcomeUndisturbed(states, events, i, j);
    RunKeepsInv(states, events, i);
  }

  /** Some permit hunt of the reconcile at `i` found no permit idle. */
  ghost predicate FoundBusy(states: seq<Trigger>, events: seq<Event>, i: nat, j: nat)
    requires 0 < j <= |events| + 1 == |states|
  {
    Permits.NoneIdleWithin(Ledgers(states), Actions(states, events), i, j - 1)
  }

  /**
   With no override and no restore owed, and whatever dispatches do meanwhile: a
   reconcile leaves the limit alone if and only if the caller's value is the
   current limit, or is smaller and no permit is found idle.
   */
  lemma KeepsIff(states: seq<Trigger>, events: seq<Event>, i: nat, j: nat)
    requires Run(states, events) && Reconcile(states, events, i, j)
    requires states[i].LiveOverride(events[i].now).None? && !OwesRestore(states, events, i)
    ensures var wanted := Permits.Clamp(events[i].baseTarget, states[0].base.MaxConcurrency());
            var before, after := states[i].ledger.limit, states[j].ledger.limit;
            && (before <= wanted ==> after == wanted)
            && (wanted < before ==> wanted <= after <= before)
            && (after == before <==> wanted == before || (wanted < before && FoundBusy(states, events, i, j)))
  {
    hide Act, Inv;
    ReconcileTarget(states, events, i);
    Outcome(states, events, i, j);
    if Target(states, events, i) < states[i].ledger.limit {
      var ledgers, actions := Ledgers(states), Actions(states, events);
      LedgerRun(states, events);
      LedgerMax(states, events);
      assert Permits.Within(ledgers, i, j - 1);
      Permits.ShrinkKeepsIff(ledgers, actions, i, j);
    }
  }

  lemma LedgerMax(states: seq<Trigger>, events: seq<Event>)
    requires Run(states, events)
    ensures states[0].ledger.max == states[0].base.MaxConcurrency()
  {
  }

  /**
   Re-applying the limit read at `h` when the reconcile lock is only taken at
   `i`: a limit raised back or left alone whatever dispatches do, a larger one
   lowered as far as idle permits allow.  It is left alone if and only if it is
   the value read, or is larger and no permit is found idle.
   */
  lemma ReapplyKeepsIff(states: seq<Trigger>, events: seq<Event>, h: nat, i: nat, j: nat)
    requires Run(states, events) && h <= i && Reconcile(states, events, i, j)
    requires events[i].baseTarget == states[h].ledger.limit
    requires states[i].LiveOverride(events[i].now).None? && !OwesRestore(states, events, i)
    ensures var read, before, after := states[h].ledger.limit, states[i].ledger.limit, states[j].ledger.limit;
            && (before <= read ==> after == read)
            && (read < before ==> read <= after <= before)
            && (after == before <==> read == before || (read < before && FoundBusy(states, events, i, j)))
            && (read < before && NoDispatch(events, i, j) ==> after == Permits.Max(read, states[i].ledger.inFlight))
  {
    hide Act;
    RunKeepsInv(states, events, h);
    RunKeepsInv(states, events, i);
    KeepsIff(states, events, i, j);
    ReconcileTarget(states, events, i);
    if NoDispatch(events, i, j) {
      OutcomeUndisturbed(states, events, i, j);
    }
  }

  /** The value read is still current if no reconcile stored a limit in between. */
  lemma {:induction false} ReadStaysCurrent(states: seq<Trigger>, events: seq<Event>, h: nat, i: nat)
    requires Run(states, events) && h <= i < |states|
    requires forall m :: h <= m < i && events[m].Permit? ==>
               !events[m].action.StoreGrown? && !events[m].action.StoreShrunk?
    ensures states[h].ledger.limit == states[i].ledger.limit
    decreases i
  {
    if h == i {
    } else {
      ReadStaysCurrent(states, events, h, i - 1);
      assert Act(states[i - 1], events[i - 1], states[i]);
    }
  }

  /** A trigger with at most two permits, none in flight and no overlay. */
  function Small(limit: nat, available: nat, phase: Permits.Phase): Trigger {
    var policy := RestartPolicy(1.0, 1.0, Finite(1.0), Finite(0.0), 1.0, 1.0);
    Trigger(BasePolicy(policy, Some(ScalingPolicy(1, 2, 2, 1, 1.0))), None, false,
            Permits.Ledger(2, limit, available, 0, phase))
  }

  /** A scale-up to two permits, then a reconcile back to one: the trigger before step i. */
  function UpAndDown(i: nat): Trigger {
    match i
    case 0 => Small(1, 1, Permits.Resting)
    case 1 => Small(1, 1, Permits.Clamped(2))
    case 2 => Small(1, 1, Permits.LimitLoaded(2, 1))
    case 3 => Small(1, 1, Permits.PermitsLoaded(2, 1, 1))
    case 4 => Small(1, 2, Permits.PermitsAdded(2, 1))
    case 5 => Small(2, 2, Permits.Resting)
    case 6 => Small(2, 2, Permits.Clamped(1))
    case 7 => Small(2, 2, Permits.LimitLoaded(1, 2))
    case 8 => Small(2, 2, Permits.PermitsLoaded(1, 2, 2))
    case 9 => Small(2, 2, Permits.Revoking(1, 2, 1, 0))
    case 10 => Small(2, 1, Permits.Revoking(1, 2, 0, 1))
    case _ => Small(1, 1, Permits.Resting)
  }

  /** Step i of that run */
  function StepAt(i: nat): Event {
    match i
    case 0 => Start(0.0, 2)
    case 5 => Start(0.0, 1)
    case 4 => Permit(Permits.StoreGrown)
    case 9 => Permit(Permits.RevokeOne)
    case 10 => Permit(Permits.StoreShrunk)
    case _ =>
      if i == 1 || i == 6 then Permit(Permits.LoadLimit)
      else if i == 2 || i == 7 then Permit(Permits.LoadPermits)
      else Permit(Permits.Branch)
  }

  lemma UpAndDownStep(i: nat)
    requires i < 11
    ensures Act(UpAndDown(i), StepAt(i), UpAndDown(i + 1))
  {
    match i {
      case 0 =>
      case 1 =>
      case 2 =>
      case 3 =>
      case 4 =>
      case 5 =>
      case _ =>
    }
  }

  /** A limit scaled up between the read and the lock is undone. */
  lemma StaleReapply() returns (states: seq<Trigger>, events: seq<Event>)
    ensures Run(states, events) && |states| == 12 && Reconcile(states, events, 5, 11)
    ensures states[5].Override().None? && !OwesRestore(states, events, 5)
    ensures events[5].baseTarget == states[0].ledger.limit == 1
    ensures states[5].ledger.limit == 2 && states[11].ledger.limit == 1
  {
    states, events := seq(12, i requires 0 <= i < 12 => UpAndDown(i)), seq(11, i requires 0 <= i < 11 => StepAt(i));
    hide Act;
    forall i | 0 <= i < |events| ensures Act(states[i], events[i], states[i + 1]) {
      UpAndDownStep(i);
    }
  }
}
