/**
 The store of trigger records, called one operation at a time: every method is
 tied to the overlay functions of `TriggerOverlay`, leaves other triggers alone,
 and refuses a generation that is no longer the registered one.
 */
module OverlayStore {
  import opened Wrappers
  import opened TriggerPolicies
  import opened TriggerOverlay
  import opened Permits
  import opened Backoff

  type ServiceId = nat

  datatype Record = Record(generation: nat, trigger: Trigger)

  datatype EffectivePolicy = EffectivePolicy(restart: RestartPolicy, dispatchTimeout: Option<Duration>)

  /**
   What holds of a record between calls even if it was registered with a limit
   outside 1..max or with more idle permits than its limit.
   */
  ghost predicate Sound(t: Trigger) {
    && t.base.Valid() && t.ledger.max == t.base.MaxConcurrency() && t.ledger.phase.Resting?
    && (t.Override().Some? ==> 1 <= t.Override().value <= t.ledger.max)
    && t.ledger.inFlight == SatSub(t.ledger.limit, t.ledger.available)
  }

  class TriggerPolicyOverlayStore {
    var records: map<ServiceId, Record>

    ghost predicate Valid()
      reads this
    {
      forall id :: id in records ==> Sound(records[id].trigger)
    }

    predicate Current(id: ServiceId, generation: nat)
      reads this
    {
      id in records && records[id].generation == generation
    }

    /** The same services are registered, and the records of all others are as they were. */
    twostate predicate Only(id: ServiceId)
      reads this
    {
      && records.Keys == old(records.Keys)
      && forall k :: k in records && k != id ==> records[k] == old(records)[k]
    }

    constructor ()
      ensures Valid() && records == map[]
    {
      records := map[];
    }

    /** A registration replaces whatever the service had: no overlay, nothing to restore. */
    method RegisterTrigger(id: ServiceId, generation: nat, base: BasePolicy, available: nat, limit: nat)
      requires Valid() && base.Valid()
      modifies this
      ensures Valid() && Current(id, generation)
      ensures records == old(records)[id := records[id]]
      ensures var t := records[id].trigger;
              && t.base == base && t.ledger.limit == limit && t.ledger.available == available
              && t.active.None? && !t.restore
              && (TriggerOverlay.Registered(t) <==> available <= limit && 1 <= limit <= base.MaxConcurrency())
    {
      var ledger := Ledger(base.MaxConcurrency(), limit, available, SatSub(limit, available), Resting);
      records := records[id := Record(generation, Trigger(base, None, false, ledger))];
    }

    method RemoveTriggerGeneration(id: ServiceId, generation: nat)
      requires Valid()
      modifies this
      ensures Valid()
      ensures records == if old(Current(id, generation)) then old(records) - {id} else old(records)
    {
      if Current(id, generation) {
        records := records - {id};
      }
    }

    method RequestOverlay(id: ServiceId, generation: nat, overlay: Overlay, now: real)
      returns (error: Option<OverlayError>)
      requires Valid()
      modifies this
      ensures Valid()
      ensures error.None? <==> old(Current(id, generation)) && Acceptable(old(records)[id].trigger.base, overlay)
      ensures error.Some? ==> records == old(records)
      ensures error.None? ==> Only(id) && Current(id, generation)
                              && TriggerOverlay.Act(old(records)[id].trigger, Request(overlay, now),
                                                    records[id].trigger)
      ensures error.None? ==>
                var t, t' := old(records)[id].trigger, records[id].trigger;
                && t'.active == Some(Active(overlay, now + overlay.ttl)) && t'.base == t.base && t'.ledger == t.ledger
                && (t'.restore <==> t.Override().Some? && overlay.concurrency.None?)
      ensures !WellShaped(overlay) ==> error == ValidateShape(overlay)
      ensures WellShaped(overlay) && !old(Current(id, generation)) ==> error == Some(TriggerOverlayUnavailable)
      ensures WellShaped(overlay) && old(Current(id, generation)) && error.Some? ==>
                var max := old(records)[id].trigger.base.MaxConcurrency();
                && overlay.concurrency.Some? && overlay.concurrency.value > max
                && error == Some(ConcurrencyLimitExceedsMax(overlay.concurrency.value, max))
    {
      error := ValidateShape(overlay);
      if error.Some? {
        return;
      }
      if !Current(id, generation) {
        return Some(TriggerOverlayUnavailable);
      }
      error := ValidateBounds(records[id].trigger.base, overlay);
      if error.None? {
        records := records[id := records[id].(trigger := Requested(records[id].trigger, overlay, now))];
      }
    }

    method ClearOverlay(id: ServiceId, generation: nat, reason: string) returns (error: Option<OverlayError>)
      requires Valid()
      modifies this
      ensures Valid()
      ensures error == if Blank(reason) then Some(EmptyReason)
                       else if old(Current(id, generation)) then None
                       else Some(TriggerOverlayUnavailable)
      ensures error.Some? ==> records == old(records)
      ensures error.None? ==> Only(id) && Current(id, generation)
                              && TriggerOverlay.Act(old(records)[id].trigger, Clear, records[id].trigger)
      ensures error.None? ==>
                var t, t' := old(records)[id].trigger, records[id].trigger;
                && t'.active.None? && t'.base == t.base && t'.ledger == t.ledger
                && (t'.restore <==> t.restore || t.Override().Some?)
    {
      error := CheckReason(reason);
      if error.Some? {
        return;
      }
      if !Current(id, generation) {
        return Some(TriggerOverlayUnavailable);
      }
      records := records[id := records[id].(trigger := Cleared(records[id].trigger))];
    }

    /** Drops the overlay if its time has come. */
    method PruneExpired(id: ServiceId, now: real)
      requires Valid() && id in records
      modifies this
      ensures Valid() && Only(id) && records[id].generation == old(records)[id].generation
      ensures TriggerOverlay.Act(old(records)[id].trigger, Prune(now), records[id].trigger)
      ensures var t, t' := old(records)[id].trigger, records[id].trigger;
              if t.active.Some? && now >= t.active.value.expiresAt
              then t'.active.None? && t'.ledger == t.ledger && (t'.restore <==> t.restore || t.Override().Some?)
              else t' == t
    {
      records := records[id := records[id].(trigger := Pruned(records[id].trigger, now))];
    }

    /** What a dispatch at time `now` runs under: the live overlay's retry policy and timeout over the base. */
    method EffectivePolicyAt(id: ServiceId, generation: nat, fallback: BasePolicy, now: real)
      returns (p: EffectivePolicy)
      requires Valid()
      modifies this
      ensures Valid()
      ensures !old(Current(id, generation)) ==> p == EffectivePolicy(fallback.restart, None) && records == old(records)
      ensures old(Current(id, generation)) ==>
                Only(id) && Current(id, generation) && records[id].trigger == Pruned(old(records)[id].trigger, now)
      ensures old(Current(id, generation)) ==>
                var t := old(records)[id].trigger;
                var live := t.active.Some? && now < t.active.value.expiresAt;
                && p.restart == (if live && t.active.value.overlay.retry.Some? then t.active.value.overlay.retry.value
                                 else t.base.restart)
                && p.dispatchTimeout == (if live then t.active.value.overlay.dispatchTimeout else None)
    {
      if !Current(id, generation) {
        return EffectivePolicy(fallback.restart, None);
      }
      PruneExpired(id, now);
      var t := records[id].trigger;
      if t.active.None? {
        return EffectivePolicy(t.base.restart, None);
      }
      var overlay := t.active.value.overlay;
      return EffectivePolicy(if overlay.retry.Some? then overlay.retry.value else t.base.restart,
                             overlay.dispatchTimeout);
    }

    method EffectiveConcurrencyLimit(id: ServiceId, generation: nat, fallback: nat, now: real) returns (limit: nat)
      requires Valid()
      modifies this
      ensures Valid()
      ensures !old(Current(id, generation)) ==> limit == fallback && records == old(records)
      ensures old(Current(id, generation)) ==>
                Only(id) && Current(id, generation) && records[id].trigger == Pruned(old(records)[id].trigger, now)
      ensures old(Current(id, generation)) ==>
                var live := old(records)[id].trigger.LiveOverride(now);
                limit == if live.Some? then live.value else fallback
    {
      if !Current(id, generation) {
        return fallback;
      }
      PruneExpired(id, now);
      var o := records[id].trigger.Override();
      return if o.Some? then o.value else fallback;
    }

    /** The settled target is applied: expiry and flag first, then the permits. */
    method ReconcileEffectiveConcurrency(id: ServiceId, generation: nat, baseTarget: nat, now: real)
      returns (limit: nat)
      requires Valid()
      modifies this
      ensures Valid()
      ensures !old(Current(id, generation)) ==> limit == Max(baseTarget, 1) && records == old(records)
      ensures old(Current(id, generation)) ==> Only(id) && Current(id, generation)
      ensures old(Current(id, generation)) ==>
                var t := old(records)[id].trigger;
                var target := Clamp(Desired(t, now, baseTarget), t.base.MaxConcurrency());
                && limit == ReconciledLimit(t.ledger.limit, t.ledger.inFlight, target)
                && records[id].trigger == Decided(t, now).(ledger := Moved(t.ledger, limit))
    {
      if !Current(id, generation) {
        return Max(baseTarget, 1);
      }
      var t := records[id].trigger;
      records := records[id := records[id].(trigger := Decided(t, now))];
      limit := ReconcileConcurrencyLimit(id, Desired(t, now, baseTarget));
    }

    /** Re-applies the stored limit: only an override or an owed restore moves it. */
    method ApplyEffectiveConcurrency(id: ServiceId, generation: nat, now: real)
      requires Valid()
      modifies this
      ensures Valid()
      ensures !old(Current(id, generation)) ==> records == old(records)
      ensures old(Current(id, generation)) ==> Only(id) && Current(id, generation)
      ensures old(Current(id, generation)) ==>
                var t := old(records)[id].trigger;
                var live := t.LiveOverride(now);
                var target := if live.Some? then live.value
                              else if t.restore || t.Override().Some? then t.base.InitialConcurrency()
                              else Clamp(t.ledger.limit, t.base.MaxConcurrency());
                records[id].trigger ==
                  Decided(t, now)
                    .(ledger := Moved(t.ledger, ReconciledLimit(t.ledger.limit, t.ledger.inFlight, target)))
    {
      var limit := if Current(id, generation) then records[id].trigger.ledger.limit else 1;
      var _ := ReconcileEffectiveConcurrency(id, generation, limit, now);
    }

    /** Takes up to `count` idle permits out of circulation, stopping early when none is left. */
    method RevokeIdle(id: ServiceId, count: nat) returns (revoked: nat)
      requires id in records
      modifies this
      ensures Only(id)
      ensures var before := old(records)[id].trigger;
              && revoked == (if count <= before.ledger.available then count else before.ledger.available)
              && records[id] == old(records)[id].(trigger := Fewer(before, revoked))
    {
      ghost var before := records[id].trigger;
      revoked := 0;
      while revoked < count && records[id].trigger.ledger.available > 0
        invariant 0 <= revoked <= count && revoked <= before.ledger.available
        invariant id in records && Only(id)
        invariant records[id] == old(records)[id].(trigger := Fewer(before, revoked))
      {
        var t := records[id].trigger;
        records := records[id := records[id].(trigger := t.(ledger := t.ledger.(available := t.ledger.available - 1)))];
        revoked := revoked + 1;
      }
    }

    /** Moves limit and idle permits together towards the clamped target; running work keeps its permits. */
    method ReconcileConcurrencyLimit(id: ServiceId, wanted: nat) returns (limit: nat)
      requires Valid() && id in records
      modifies this
      ensures Valid() && Only(id)
      ensures TriggerOverlay.Inv(old(records)[id].trigger) ==> TriggerOverlay.Inv(records[id].trigger)
      ensures var before := old(records)[id];
              && limit == ReconciledLimit(before.trigger.ledger.limit, before.trigger.ledger.inFlight,
                                          Clamp(wanted, before.trigger.base.MaxConcurrency()))
              && records[id] == before.(trigger := before.trigger.(ledger := Moved(before.trigger.ledger, limit)))
    {
      hide Sound, TriggerOverlay.Inv, Clamp;
      var before := records[id];
      var ledger := before.trigger.ledger;
      var desired := Clamp(wanted, before.trigger.base.MaxConcurrency());
      var current, available := ledger.limit, ledger.available;
      MovedSound(before.trigger, wanted, desired);
      limit := current;
      if desired > current {
        limit := desired;
        records := records[id := before.(trigger := before.trigger.(ledger := Moved(ledger, desired)))];
      } else if desired < current {
        var target := Max(desired, SatSub(current, available));
        var revoked := RevokeIdle(id, SatSub(current, target));
        limit := SatSub(current, revoked);
        var t := records[id].trigger;
        records := records[id := records[id].(trigger := t.(ledger := t.ledger.(limit := limit)))];
      }
    }
  }

  /** The trigger with some idle permits fewer. */
  function Fewer(t: Trigger, n: nat): Trigger
    requires n <= t.ledger.available
  {
    t.(ledger := t.ledger.(available := t.ledger.available - n))
  }

  /** The ledger with its limit moved and the idle permits adjusted by the same amount. */
  function Moved(l: Ledger, limit: nat): Ledger
    requires l.available + limit >= l.limit
  {
    l.(limit := limit, available := l.available + limit - l.limit)
  }

  /** Moving a record's limit to where a reconcile ends keeps the record in order. */
  lemma MovedSound(t: Trigger, wanted: nat, target: nat)
    requires Sound(t) && target == Clamp(wanted, t.base.MaxConcurrency())
    ensures t.ledger.inFlight == SatSub(t.ledger.limit, t.ledger.available)
    ensures var limit := ReconciledLimit(t.ledger.limit, t.ledger.inFlight, target);
            && t.ledger.available + limit >= t.ledger.limit
            && Sound(t.(ledger := Moved(t.ledger, limit)))
            && (TriggerOverlay.Inv(t) ==> TriggerOverlay.Inv(t.(ledger := Moved(t.ledger, limit))))
  {
  }
}
