# Verified model of service-daemon

A Dafny model of the parts of the `service-daemon` framework, and of its
controller-bridge example, whose correctness spans whole runs: versioned provider
state and its watches, provider scopes, trigger permits and policy overlays, backoff
and restart storms, provider initialization, framing and command correlation, and
diagnostics with their sampling windows.

`dafny verify dfyconfig.toml` checks the project.

## How the model is built

- Code that runs under interleaving is a transition system: a state, atomic steps
  that match the program's atomic reads, writes, lock sections and notifications, an
  invariant kept by every step, and theorems over every run. This covers
  `ValueWatch`, `BindingWatch`, `OnceInit`, `ProviderScope`, `Permits`,
  `TriggerOverlay`, `Diagnostics`, `Retention`, `UpdateMax` and `ObservationRace`.
- Objects that one caller at a time updates are classes whose methods are tied to
  functions of the old state: `FrameCodec`, `InMemoryTransport`, `DeviceConnection`,
  `TrackedRwLock`, `BackoffController`, `RestartStormGuard`,
  `TriggerPolicyOverlayStore`, `GenerationTable`, `ObservationStats`,
  `DiagnosticsSampler`.
- Clocks, jitter, attempt outcomes and message encoding are parameters. Durations
  are reals, nanosecond counts or abstract ticks; a configured float is a real or
  "not finite".

## Where the code does less than one might expect

- A request accepted after an override has ended overwrites the pending restore, so
  the base limit is not restored. `TriggerOverlay.LostRestore` is such a run and
  `TriggerOverlay.RestoreIff` the exact condition.
- `apply_effective_concurrency` reads the limit before it takes the reconcile lock;
  `TriggerOverlay.ReapplyKeepsIff` says when re-applying that value changes nothing and
  `TriggerOverlay.StaleReapply` is a run in which it undoes a scale-up.
- An oversized header discards frames decoded in the same `feed` call;
  `Framing.NothingLostIff` says, from the input, when nothing is lost.
- Overlapping first resolves can both run `init`; `OnceInit.InitRunsTwiceIff`.
- A wrapped value epoch can hide a change; `ValueWatch.ReturnsIff` and
  `ValueWatch.WrapHidesChange`. A saturated binding epoch can too;
  `Bindings.MutationVisibleIff` and `BindingWatch.SaturationHidesChange`.
- A window's average drift can read one millisecond high;
  `Windows.AverageWithBaseline`.
- The storm guard bounds the failures in a window by its threshold only while
  suppression outlasts the window, as it does by default; `StormGuard.StormBoundIff`.
- Positive delays do not by themselves bound the initialization attempts before the
  deadline: under full jitter, without a maximum or with a shrinking multiplier their
  number can be unbounded. `AttemptBound.UnboundedIff` is the exact condition.
- A frame that cannot be decoded drops the frames behind it in its chunk, so which
  commands complete can depend on chunking. `StreamReplies.ChunksIrrelevantIff` is the
  exact condition, and `StreamReplies.HiddenInOneChunk` and
  `StreamReplies.SeenInTwoChunks` are two runs over the same bytes.

## Model

| member | source | states |
|---|---|---|
| `ValueWatch.ActKeepsInv` | service-daemon/src/core/managed_state.rs:244-263 | every atomic step of a waiter or of the lock holder keeps: channel = epoch, plus one while a publication has replaced but not bumped; a parked, unwoken waiter has missed at most a bump whose notification is still to come |
| `ValueWatch.RunKeepsInv` | service-daemon/src/core/managed_state.rs:244-263 | that invariant in every state of every interleaving of any number of waiters with publications |
| `ValueWatch.NoLostWakeup` | service-daemon/src/core/managed_state.rs:244-263 | in every interleaving a parked waiter that is not notified still sees its observed epoch, or a publisher has bumped and not yet notified |
| `ValueWatch.ReturnSeesPublication` | service-daemon/src/core/managed_state.rs:336-361 | a waiter that returns epoch e differs from its observation, and from then on the channel value is at least as new as publication e |
| `ValueWatch.ReturnsWhatItRead` | service-daemon/src/core/managed_state.rs:244-263 | a waiter returns the epoch it read in the returning step, which differs from the one it observed, and keeps that answer |
| `ValueWatch.ChannelMonotone` | service-daemon/src/core/managed_state.rs:336-361 | neither the channel nor the publication count goes back in any run |
| `ValueWatch.OwnStepsCount` | service-daemon/src/core/managed_state.rs:244-263 | over any run, every own step of a waiter that sees a moved epoch brings it nearer to its return, whatever steps of others fall in between |
| `ValueWatch.ReturnsInTwoSteps` | service-daemon/src/core/managed_state.rs:244-263 | over any run, a waiter whose epoch has moved between publications has returned by its second own step, whatever others do in between |
| `ValueWatch.ReturnsIff` | service-daemon/src/core/managed_state.rs:56-64 | between publications a waiter behind by k > 0 changes returns, once it has taken two own steps, if and only if k is not a multiple of 2^64 |
| `ValueWatch.WrapHidesChange` | service-daemon/src/core/managed_state.rs:336-343 | a run in which 2^64 publications leave a waiter parked that observed none of them |
| `ValueWatch.MissedOnlyOnWrap` | service-daemon/src/core/managed_state.rs:56-64 | a parked, unwoken waiter that is behind between publications is behind by a nonzero multiple of 2^64 |
| `ValueWatch.SameEpoch` | service-daemon/src/core/managed_state.rs:56-64 | two publication counts read as the same epoch if and only if they differ by a multiple of 2^64 |
| `ValueWatch.WaiterNeverStuck` | service-daemon/src/core/managed_state.rs:244-263 | a waiter is blocked only while parked and not woken |
| `ValueWatch.WriterNeverStuck` | service-daemon/src/core/managed_state.rs:336-343 | a publication is never blocked: it replaces, bumps and then wakes every registered waiter |
| `ManagedState.TrackedRwLock.constructor` | service-daemon/src/core/managed_state.rs:138-151 | a new lock holds and has published its initial cell, at epoch 0 |
| `ManagedState.TrackedRwLock.Snapshot` | service-daemon/src/core/managed_state.rs:181-188 | a reader shares the last published cell and nothing else changes |
| `ManagedState.TrackedRwLock.DerefMut` | service-daemon/src/core/managed_state.rs:371-376 | the lock then holds the value written and is dirty; the published cell and every cell held by a reader keep their values |
| `ManagedState.TrackedRwLock.PublishCurrent` | service-daemon/src/core/managed_state.rs:337-343 | the channel shares the lock's cell, whose value does not change; the history grows by it and the flag is cleared |
| `ManagedState.TrackedRwLock.Commit` | service-daemon/src/core/managed_state.rs:347-351 | commit, and equally dropping the guard, publishes exactly once if there are unpublished writes and does nothing otherwise |
| `ManagedState.TrackedRwLock.Publish` | service-daemon/src/core/managed_state.rs:355-361 | lock and channel share the caller's cell and the epoch advances by one |
| `ManagedState.SessionSettled` | service-daemon/src/core/managed_state.rs:336-384 | through any sequence of writes, commits and publishes nothing is unpublished without the flag, and the published history only grows |
| `ManagedState.DropPublishes` | service-daemon/src/core/managed_state.rs:378-384 | after any guard session and its drop, what readers see is what the lock holds |
| `ManagedState.UntouchedSessionSilent` | service-daemon/src/core/managed_state.rs:291-307 | a guard under which nothing was written publishes nothing, however often it commits |
| `ManagedState.CommitIdempotent` | service-daemon/src/core/managed_state.rs:347-351 | a second commit without a write in between publishes nothing |
| `ManagedState.SessionSoFar` | service-daemon/src/core/managed_state.rs:336-384 | after any number of operations of a session: the value of the last write or publish, the flag up exactly after a write, and everything published so far |
| `ManagedState.LastValueWins` | service-daemon/src/core/managed_state.rs:378-384 | after any session and its guard's drop the value held and last published is that of the session's last write or publish |
| `ManagedState.SessionPublishes` | service-daemon/src/core/managed_state.rs:336-384 | a session and its drop publish, in order, exactly the published values and each write that a commit follows |
| `OnceInit.ActKeepsInv` | service-daemon/src/core/managed_state.rs:119-152 | every step of any number of first-time resolvers keeps cell ownership, init counts and the order of looks and fills |
| `OnceInit.RunKeepsInv` | service-daemon/src/core/managed_state.rs:181-198 | that invariant in every state of every interleaving |
| `OnceInit.InitRunsTwiceIff` | service-daemon/src/core/managed_state.rs:129-133 | init succeeds at most twice, and twice if and only if each resolve looked at the other's cell before it was filled; otherwise both cells share one value |
| `OnceInit.BothRunInit` | service-daemon/src/core/managed_state.rs:194-197 | a concrete interleaving in which snapshot and lock end with different values |
| `OnceInit.ResolversAgree` | service-daemon/src/core/managed_state.rs:119-198 | in every run everyone who resolved has the value of the cell resolved from, and whoever wanted the lock has the lock's |
| `OnceInit.WantedIsAsked` | service-daemon/src/core/managed_state.rs:119-198 | what a resolver wants is what it came for, throughout |
| `OnceInit.NeverStuck` | service-daemon/src/core/managed_state.rs:119-198 | while anyone is unresolved someone has a step, so cells held by others do not deadlock |
| `Bindings.MutationVisibleIff` | service-daemon/src/core/provider_scope.rs:241-264 | a binding mutation changes the snapshot unless the epoch is saturated and the kind stays the same |
| `BindingWatch.ActKeepsInv` | service-daemon/src/core/provider_scope.rs:133-164 | every step keeps: a waiter past its fetch implies a notifier exists; a parked, unwoken waiter has all later mutations still to notify |
| `BindingWatch.RunKeepsInv` | service-daemon/src/core/provider_scope.rs:133-164 | that invariant in every interleaving of waiters with concurrent mutators |
| `BindingWatch.FinishedMutationReachesAll` | service-daemon/src/core/provider_scope.rs:241-264 | once a mutation has finished, every waiter still parked and unwoken re-checked after that mutation |
| `BindingWatch.NoLostWakeup` | service-daemon/src/core/provider_scope.rs:140-157 | with all mutations finished, a waiter whose observation differs has returned, is woken, or has yet to re-check, although the notifier is created lazily and a missing one is skipped |
| `BindingWatch.ReturnsOnlyOnChange` | service-daemon/src/core/provider_scope.rs:140-157 | a waiter returns only at a re-check that finds another binding than the one observed |
| `BindingWatch.EpochCounts` | service-daemon/src/core/provider_scope.rs:241-264 | in every run the epoch is the number of mutations, up to saturation, and the kind that of the last one |
| `BindingWatch.WaiterNeverStuck` | service-daemon/src/core/provider_scope.rs:140-157 | a waiter is blocked only while parked and not woken |
| `BindingWatch.MutatorNeverStuck` | service-daemon/src/core/provider_scope.rs:241-264 | a mutation and its notification are never blocked |
| `BindingWatch.SaturationHidesChange` | service-daemon/src/core/provider_scope.rs:241-264 | a run in which a mutation after 2^64 - 1 others wakes a waiter that then parks again |
| `BindingWatch.ReturnsInFourSteps` | service-daemon/src/core/provider_scope.rs:140-157 | over any run, such a waiter has returned by its fourth own step, whatever others do in between |
| `ProviderScope.ActKeepsInv` | service-daemon/src/core/provider_scope.rs:226-264 | no step makes two owners share a slot, root or local |
| `ProviderScope.RunKeepsInv` | service-daemon/src/core/provider_scope.rs:226-264 | slots stay unshared in every run |
| `ProviderScope.ResolveIsLookup` | service-daemon/src/core/provider_scope.rs:267-322 | a resolve uses the local slot exactly for an overridden key, and so reads what a plain override map holds; in a daemon scope overridden means bound |
| `ProviderScope.StepRefines` | service-daemon/src/core/provider_scope.rs:211-264 | every atomic step, even between the two halves of an install, amounts to at most one operation on the override map |
| `ProviderScope.RunRefines` | service-daemon/src/core/provider_scope.rs:211-264 | every run is matched by a run of the override map, operation by operation |
| `ProviderScope.Isolation` | service-daemon/src/core/provider_scope.rs:267-322 | a step not concerning a key changes neither the slot that key resolves to nor what it holds |
| `ProviderScope.AddressOwners` | service-daemon/src/core/provider_scope.rs:267-322 | two keys resolve to one slot if and only if they are the same type and neither is overridden |
| `ProviderScope.LastWriteHolds` | service-daemon/src/core/provider_scope.rs:226-264 | in every run a slot holds what was written to it last; a publication raises its epoch by one, an install starts at 0 |
| `ProviderScope.ResolveLinearizes` | service-daemon/src/core/provider_scope.rs:267-274 | a resolve reads binding and slot one after the other; whatever happens in between, it finds the slot that a resolve in one step finds at one of the two reads |
| `ProviderScope.WatchStaysQuiet` | service-daemon/src/core/provider_scope.rs:349-384 | a dependency watch, whose capture reads binding, slot and epoch one after the other, stays incomplete until its key is bound after the first read or its slot published to after the last |
| `ProviderScope.OverrideWatchIgnoresRoot` | service-daemon/src/core/provider_scope.rs:349-384 | a watch captured under an override is never completed by publications to root slots, including roots added later, nor by other scopes |
| `ProviderScope.WatchCompletes` | service-daemon/src/core/provider_scope.rs:349-384 | a publication to the watched slot completes the watch; binding its key does so unless the change is invisible by saturation |
| `Permits.ActKeepsInv` | service-daemon/src/core/trigger_policy_overlay.rs:388-432 | every atomic step of dispatches and of the reconciler keeps the permit balance and the bounds of the limit |
| `Permits.RunKeepsInv` | service-daemon/src/core/trigger_policy_overlay.rs:388-432 | the same in every state of every interleaving |
| `Permits.Conservation` | service-daemon/src/core/runtime_facts.rs:126-129 | available + in flight = limit + permits not yet stored, always; the reported in-flight count is off by exactly those permits and is the true count at rest |
| `Permits.ReportedFromTwoLoads` | service-daemon/src/core/runtime_facts.rs:126-129 | limit and permits are loaded at different moments: the reported count is the true one at the second load, shifted by what the limit changed in between and by permits not stored; with no reconcile in between it is the true one |
| `Permits.ShrinkKeepsIff` | service-daemon/src/core/trigger_policy_overlay.rs:396-428 | under any dispatches a reconcile towards a smaller limit leaves the limit alone if and only if it found no permit idle, at its sample or at its first revocation |
| `Permits.TargetFixed` | service-daemon/src/core/trigger_policy_overlay.rs:388-391 | between its start and its store a reconcile's target is the clamped request and the stored limit does not move |
| `Permits.ReconcileOutcome` | service-daemon/src/core/trigger_policy_overlay.rs:388-432 | under any interference growing reaches the target exactly; shrinking ends between target and old limit and never below the work in flight |
| `Permits.ReconcilerProgress` | service-daemon/src/core/trigger_policy_overlay.rs:388-432 | the reconciler is never blocked, each of its steps brings it nearer to the end, and dispatches neither move it nor the limit |
| `Permits.NeverStuck` | service-daemon/src/core/trigger_policy_overlay.rs:388-432 | running work can return its permit, an idle permit can be taken and a reconcile begun, whenever there is one |
| `Permits.ReconciledLimit` | service-daemon/src/core/trigger_policy_overlay.rs:388-432 | where an undisturbed reconcile ends: the target when running work fits, never below running work |
| `Permits.UndisturbedFaithful` | service-daemon/src/core/trigger_policy_overlay.rs:396-415 | without dispatches the sampled availability stays true, so no revocation fails |
| `Permits.Convergence` | service-daemon/src/core/trigger_policy_overlay.rs:388-432 | one undisturbed reconcile reaches the target when running work fits, and repeating it changes nothing |
| `Permits.ClampIsNearest` | service-daemon/src/core/trigger_policy_overlay.rs:388-391 | the clamp is the value of 1..max nearest to the one wanted |
| `TriggerPolicies.TryNew` | service-daemon/src/models/policy.rs:621-657 | strict construction accepts exactly 1 <= initial <= max, factor >= 2, threshold >= 1, and returns what it was given |
| `TriggerPolicies.BuilderAccepted` | service-daemon/src/models/policy.rs:707-749 | after any setter calls in any order, strict construction accepts what the builder builds |
| `TriggerPolicies.FirstRefusal` | service-daemon/src/models/policy.rs:629-650 | each refusal if and only if its own check is the first to fail |
| `TriggerPolicies.LastSettingWins` | service-daemon/src/models/policy.rs:707-740 | after any setter calls each field holds the last value set for it, raised to the field's least value |
| `TriggerPolicies.UnsetKeepsDefault` | service-daemon/src/models/policy.rs:602-612 | a field nobody set holds its default |
| `TriggerPolicies.BuildCaps` | service-daemon/src/models/policy.rs:743-749 | building changes nothing but an initial concurrency above the maximum, which becomes the maximum |
| `TriggerPolicies.ValidateShape` | service-daemon/src/models/policy.rs:356-377 | no error if and only if the overlay asks for something, has a reason and a lifetime, no zero values and only retry numbers that would be used unaltered |
| `TriggerPolicies.FirstFault` | service-daemon/src/models/policy.rs:356-377 | each error if and only if its own check is the first to fail |
| `TriggerOverlay.ActKeepsInv` | service-daemon/src/core/trigger_policy_overlay.rs:136-208 | requests, clears, expiry, reconciles and dispatches keep the ledger balanced and any override within 1..max |
| `TriggerOverlay.RunKeepsInv` | service-daemon/src/core/trigger_policy_overlay.rs:136-284 | the same in every interleaving |
| `TriggerOverlay.LedgerRun` | service-daemon/src/core/trigger_policy_overlay.rs:247-284 | seen from its permits, every run of overlay operations is a run of the permit protocol |
| `TriggerOverlay.FlagIff` | service-daemon/src/core/trigger_policy_overlay.rs:156-208 | in every run the restore flag is up exactly while some override has ended with no later accepted request or reconcile |
| `TriggerOverlay.ActiveIff` | service-daemon/src/core/trigger_policy_overlay.rs:136-208 | in every run the overlay in place is that of the last request accepted, unaltered, until it is cleared, replaced or expires |
| `TriggerOverlay.NoScalingMeansOne` | service-daemon/src/core/trigger_policy_overlay.rs:22-29 | in every run a trigger without scaling policy keeps the limit 1 |
| `TriggerOverlay.ReconcileTarget` | service-daemon/src/core/trigger_policy_overlay.rs:257-274 | in every run a reconcile aims for the limit of the request still in force, exactly as it was requested, else the initial concurrency if a restore is owed, else the clamped caller value; clamping never alters the first two |
| `TriggerOverlay.RestoreIff` | service-daemon/src/core/trigger_policy_overlay.rs:156-167 | after an override has ended, the next reconcile aims for the initial concurrency if and only if no request was accepted in between (or the caller asks for that limit anyway) |
| `TriggerOverlay.LostRestore` | service-daemon/src/core/trigger_policy_overlay.rs:167 | a concrete run in which a later request makes the base limit be forgotten |
| `TriggerOverlay.RestoreOnce` | service-daemon/src/core/trigger_policy_overlay.rs:257-274 | with no override ending since the last reconcile the next one aims for the caller's value |
| `TriggerOverlay.Outcome` | service-daemon/src/core/trigger_policy_overlay.rs:247-284 | a whole reconcile, interleaved with anything, ends at or above its target and never below running work |
| `TriggerOverlay.OutcomeUndisturbed` | service-daemon/src/core/trigger_policy_overlay.rs:247-284 | without dispatches it ends exactly where the permit protocol says |
| `TriggerOverlay.RestoreReached` | service-daemon/src/core/trigger_policy_overlay.rs:267-269 | a restore without dispatches ends at the larger of the scaling policy's initial concurrency (1 without one) and work in flight |
| `TriggerOverlay.KeepsIff` | service-daemon/src/core/trigger_policy_overlay.rs:247-284 | with no override and no restore owed, under any dispatches: the limit stays if and only if the caller's value is the current limit, or is smaller and no permit is found idle |
| `TriggerOverlay.ReapplyKeepsIff` | service-daemon/src/core/trigger_policy_overlay.rs:239-245 | re-applying the limit read at one moment under a lock taken later: a smaller current limit is raised to the value read, a larger one lowered as far as idle permits allow, and it stays if and only if it is the value read, or larger with no permit found idle |
| `TriggerOverlay.ReadStaysCurrent` | service-daemon/src/core/trigger_policy_overlay.rs:361-365 | the value read is still the limit if no reconcile stored one in between |
| `TriggerOverlay.StaleReapply` | service-daemon/src/core/trigger_policy_overlay.rs:239-245 | a run in which a scaled-up limit is undone by a stale re-apply |
| `OverlayStore.TriggerPolicyOverlayStore.RegisterTrigger` | service-daemon/src/core/trigger_policy_overlay.rs:90-107 | the service's record is replaced by a fresh one without overlay, with whatever limit and permits it is given; all others stay; it starts a run of the protocol if and only if the limit is within 1..max and the permits within the limit |
| `OverlayStore.TriggerPolicyOverlayStore.RemoveTriggerGeneration` | service-daemon/src/core/trigger_policy_overlay.rs:109-134 | removes the record of exactly that generation; a stale generation changes nothing |
| `OverlayStore.TriggerPolicyOverlayStore.RequestOverlay` | service-daemon/src/core/trigger_policy_overlay.rs:136-170 | accepted if and only if current, well shaped and within the maximum; the overlay in place is then the requested one, expiring after its lifetime, and a restore is owed exactly if a limit was dropped; every refusal with its own error, changing nothing |
| `OverlayStore.TriggerPolicyOverlayStore.ClearOverlay` | service-daemon/src/core/trigger_policy_overlay.rs:172-208 | error cases exactly; a refusal changes nothing; acceptance leaves no overlay, owes a restore if a limit was dropped or one was owed before, and touches no other service |
| `OverlayStore.TriggerPolicyOverlayStore.PruneExpired` | service-daemon/src/core/trigger_policy_overlay.rs:337-350 | drops the overlay exactly when its time has come and touches no other service |
| `OverlayStore.TriggerPolicyOverlayStore.EffectivePolicyAt` | service-daemon/src/core/trigger_policy_overlay.rs:210-237 | the live overlay's retry policy over the base one and its timeout, with an expired overlay dropped; the fallback for a stale generation |
| `OverlayStore.TriggerPolicyOverlayStore.EffectiveConcurrencyLimit` | service-daemon/src/core/trigger_policy_overlay.rs:286-298 | the live override or the fallback, with an expired overlay dropped |
| `OverlayStore.TriggerPolicyOverlayStore.ReconcileEffectiveConcurrency` | service-daemon/src/core/trigger_policy_overlay.rs:247-284 | new limit, permits, overlay and flag in full; a stale generation answers max(target, 1) and changes nothing |
| `OverlayStore.TriggerPolicyOverlayStore.ApplyEffectiveConcurrency` | service-daemon/src/core/trigger_policy_overlay.rs:239-245 | called alone: the whole new record; the limit moves to a live override or, if a restore is owed, towards the initial concurrency, and otherwise only into 1..max |
| `OverlayStore.TriggerPolicyOverlayStore.RevokeIdle` | service-daemon/src/core/trigger_policy_overlay.rs:399-415 | the loop takes min(count, idle) permits |
| `OverlayStore.TriggerPolicyOverlayStore.ReconcileConcurrencyLimit` | service-daemon/src/core/trigger_policy_overlay.rs:388-432 | limit and idle permits move together to the reconciled limit, work in flight unchanged |
| `Backoff.NextDelay` | service-daemon/src/models/policy.rs:180-211 | for all policy floats and every jitter the delay lies in 0..max |
| `Backoff.PlainStep` | service-daemon/src/models/policy.rs:180-211 | without jitter a step multiplies and caps |
| `Backoff.StepLowerBound` | service-daemon/src/models/policy.rs:186-210 | whatever the jitter, a step is at least min(current * multiplier * (1 - jitter), max) |
| `Backoff.StepUpperBound` | service-daemon/src/models/policy.rs:186-210 | whatever the jitter, a step is at most current * multiplier * (1 + jitter) |
| `Backoff.BestJitter` | service-daemon/src/models/policy.rs:186-210 | full upward jitter reaches that bound, or the maximum |
| `Backoff.UnusableNumbers` | service-daemon/src/models/policy.rs:163-177 | a multiplier that is not finite or not positive counts as 1, such a jitter as 0, and jitter above 1 as 1 |
| `Backoff.StepGrowsIff` | service-daemon/src/models/policy.rs:180-211 | a step never shrinks the delay under all jitters if and only if the delay is 0, or reaches the cap, or multiplier * (1 - jitter) >= 1 |
| `Backoff.StepGrows` | service-daemon/src/models/policy.rs:180-211 | the growth condition suffices for one step |
| `Backoff.WorstJitterShrinks` | service-daemon/src/models/policy.rs:186-210 | below the growth condition the worst jitter strictly shrinks the delay |
| `Backoff.MaxAbsorbingIff` | service-daemon/src/models/policy.rs:180-211 | the maximal delay is absorbing if and only if the multiplier in force is at least 1 |
| `Backoff.ClosedForm` | service-daemon/src/models/policy.rs:180-211 | without jitter the delay after n >= 1 failures is min(initial * m^n, max) for m >= 1, and its decaying counterpart for m < 1 |
| `Backoff.NeverDecreases` | service-daemon/src/models/policy.rs:180-211 | with initial <= max and the growth condition every run of failures, under every jitter, never decreases and stays within initial..max |
| `Backoff.BackoffController.constructor` | service-daemon/src/models/policy.rs:896-902 | starts at the initial delay with no failures |
| `Backoff.BackoffController.RecordSuccess` | service-daemon/src/models/policy.rs:927-930 | back to the start of the sequence |
| `Backoff.BackoffController.RecordFailure` | service-daemon/src/models/policy.rs:936-939 | one more failure in the sequence, whose delay is the next one for its jitter; the attempt counter is the number of failures, saturating at 2^32 - 1 |
| `Backoff.BackoffController.MaybeReset` | service-daemon/src/models/policy.rs:945-949 | resets exactly when the elapsed time reaches the threshold |
| `StormGuard.RestartStormGuard.constructor` | service-daemon/src/models/policy.rs:794-802 | an empty window and a threshold of at least one |
| `StormGuard.RestartStormGuard.Prune` | service-daemon/src/models/policy.rs:838-847 | drops expired failures from the front, and only those |
| `StormGuard.RestartStormGuard.RecordFailure` | service-daemon/src/models/policy.rs:804-826 | for nondecreasing times the window is exactly the failures since the last reset within `window` of now, and is reported; below the threshold the policy delay is in effect, from it on the larger of policy and suppression delay, and the failure counts as limited if and only if suppression is the larger |
| `StormGuard.RestartStormGuard.MaybeReset` | service-daemon/src/models/policy.rs:828-836 | forgets everything exactly when the elapsed time reaches the threshold |
| `StormGuard.PruneIsFilter` | service-daemon/src/models/policy.rs:838-847 | on sorted times dropping the expired front equals filtering |
| `StormGuard.WindowIsFilter` | service-daemon/src/models/policy.rs:804-847 | for every nondecreasing history the deque is the filter of the whole history |
| `StormGuard.StormBound` | service-daemon/src/models/policy.rs:804-826 | in every run paced by the decided delays, suppression longer than the window keeps the failures in a window at or below the threshold |
| `StormGuard.DequeForgets` | service-daemon/src/models/policy.rs:804-847 | the window depends only on the failures since the last reset |
| `StormGuard.StormBoundWithResets` | service-daemon/src/models/policy.rs:804-836 | the bound in every paced run of failures and resets, whatever their order |
| `StormGuard.DefaultBound` | service-daemon/src/models/policy.rs:763-771 | the default configuration never sees more than six failures in its window |
| `StormGuard.BurstIsPaced` | service-daemon/src/models/policy.rs:763-771 | with shorter suppression a concrete paced burst exceeds the threshold |
| `StormGuard.StormBoundIff` | service-daemon/src/models/policy.rs:804-847 | the bound holds in all paced runs if and only if suppression outlasts the window |
| `ProviderInit.StartsSpread` | service-daemon/src/core/provider_init.rs:549-658 | attempt k starts at least k initial delays after the first |
| `ProviderInit.AttemptsBounded` | service-daemon/src/core/provider_init.rs:549-658 | with 0 < initial <= max and the growth condition at most ceil(timeout / initial) attempts start |
| `ProviderInit.StuckIsMaximal` | service-daemon/src/core/provider_init.rs:549-658 | the environment fixes when attempts start, so no other schedule for it goes beyond one at which the loop may stop |
| `AttemptBound.WorstStep` | service-daemon/src/models/policy.rs:180-211 | the least next delay over all jitters, in the policy's own numbers |
| `AttemptBound.DelayAboveWorst` | service-daemon/src/models/policy.rs:180-211 | no run of failures has smaller delays than the run of worst jitters |
| `AttemptBound.SteadyDelays` | service-daemon/src/models/policy.rs:180-211 | from the first failure on the worst delays never shrink when the growth is at least 1 or the maximum is reached at once |
| `AttemptBound.FadingDelays` | service-daemon/src/models/policy.rs:180-211 | otherwise they fall off geometrically |
| `AttemptBound.SumsExceed` | service-daemon/src/core/provider_init.rs:549-658 | a policy that is not endless uses up its timeout after some number of delays, whatever the jitter |
| `AttemptBound.SumsStayBelow` | service-daemon/src/core/provider_init.rs:549-658 | the worst delays of an endless policy never add up to the timeout |
| `AttemptBound.ReachableIff` | service-daemon/src/core/provider_init.rs:549-658 | some environment makes n attempts start if and only if n - 1 worst delays add up to less than the timeout |
| `AttemptBound.UnboundedIff` | service-daemon/src/core/provider_init.rs:549-658 | the number of attempts is unbounded if and only if the worst delays fade and initial + first / (1 - growth) fits into the timeout, a condition on the policy's numbers |
| `AttemptBound.BoundedOtherwise` | service-daemon/src/core/provider_init.rs:549-658 | the first number of worst delays that uses up the timeout bounds the attempts of every run |
| `AttemptBound.ZeroDelayUnbounded` | service-daemon/src/core/provider_init.rs:549-658 | with a zero initial delay and a positive timeout any number of attempts can start |
| `AttemptBound.GrowingIsSteady` | service-daemon/src/core/provider_init.rs:549-658 | 0 < initial <= max with growth at least 1 is bounded |
| `AttemptBound.EndlessExamples` | service-daemon/src/models/policy.rs:124-139 | the default policy is bounded; with full jitter, no maximum, a halving multiplier or no initial delay it is not |
| `ProviderInit.NotedAppends` | service-daemon/src/core/provider_init.rs:681-686 | noting an error keeps: count saturating, last error, last four errors in order |
| `ProviderInit.InitFallibleWithSource` | service-daemon/src/core/provider_init.rs:536-658 | for every environment: attempts start on the backoff schedule and never at or after the deadline; every result is explained by the attempts, and a timeout reports count, last error, recent errors and source of the retryable errors seen, and the last sleep taken; conversely the attempts fix which of success, fatal error, cancellation and timeout is returned and the elapsed time; the loop stops only where no further attempt may start |
| `ProviderInit.TimeoutIff` | service-daemon/src/core/provider_init.rs:549-658 | a timeout if and only if the attempt under way meets the deadline, or an error arrives at or past it, or the next attempt would start at or past it |
| `ProviderInit.TurnVerdict` | service-daemon/src/core/provider_init.rs:579-656 | the attempt that ends the call fixes its result: its value, its error, a cancellation or a timeout |
| `ProviderInit.SleepAfter` | service-daemon/src/core/provider_init.rs:617-655 | the sleep is the backoff delay, or ends at the deadline if that comes first |
| `ProviderInit.TurnReports` | service-daemon/src/core/provider_init.rs:617-645 | a timeout names the last sleep, which an error arriving past the deadline does not add to |
| `ProviderInit.RunAttempt` | service-daemon/src/core/provider_init.rs:579-656 | one turn of the loop keeps the schedule, the facts and the controller in step, or ends with an explained result |
| `ProviderInit.TurnExplains` | service-daemon/src/core/provider_init.rs:397-406 | every way a turn can end is explained by the attempt that caused it |
| `ProviderInit.RetryKeepsUnderway` | service-daemon/src/core/provider_init.rs:617-655 | a retry leaves the next attempt on schedule |
| `Framing.HeaderBytes` | examples/controller-bridge/src/adapter/codec.rs:48-52 | four bytes that read back as the length |
| `Framing.BigEndian` | examples/controller-bridge/src/adapter/codec.rs:20-28 | the header holds the length with its most significant byte first |
| `Framing.Encode` | examples/controller-bridge/src/adapter/codec.rs:48-52 | header then payload; the header reads back as the length below 2^32 |
| `Framing.FrameCodec.Feed` | examples/controller-bridge/src/adapter/codec.rs:14-42 | the stream is cut into well-sized frames and a stalled rest, or rejected at the first oversized header with an empty buffer; the buffer stays below HEADER_LEN + MAX_FRAME_LEN |
| `Framing.FrameCodec.Reset` | examples/controller-bridge/src/adapter/codec.rs:44-46 | empties the buffer |
| `Framing.UniqueSplit` | examples/controller-bridge/src/adapter/codec.rs:14-42 | a byte stream has at most one decomposition at which decoding stops |
| `Framing.FeedDeterministic` | examples/controller-bridge/src/adapter/codec.rs:14-42 | the specification fixes result and buffer of a call |
| `Framing.ChunkingIndependent` | examples/controller-bridge/src/adapter/codec.rs:14-42 | from any stalled buffer and for any chunking, the calls together deliver exactly the frames in the bytes, in order, and buffer exactly the rest |
| `Framing.RoundTrip` | examples/controller-bridge/src/adapter/codec.rs:14-52 | encodings of frames up to MAX_FRAME_LEN, cut anywhere, decode to those frames and leave nothing buffered |
| `Framing.RejectedRun` | examples/controller-bridge/src/adapter/codec.rs:29-32 | for a stream with an oversized header: the call rejects whose chunk completes that header, and what was delivered before is a prefix of the good frames |
| `Framing.NothingLostIff` | examples/controller-bridge/src/adapter/codec.rs:29-32 | on the input alone: all good frames are delivered if and only if a chunk boundary falls behind them and before the last byte of the oversized header |
| `Framing.SmallChunksLoseNothing` | examples/controller-bridge/src/adapter/codec.rs:29-32 | chunks of at most four bytes never lose a frame |
| `Framing.FiveBytesCanLoseAFrame` | examples/controller-bridge/src/adapter/codec.rs:29-32 | a five-byte chunk that does |
| `Commands.AcceptValid` | examples/controller-bridge/src/adapter/connection.rs:183-202 | accepting a command that is neither pending nor retired keeps the ledger valid |
| `Commands.RetireExact` | examples/controller-bridge/src/adapter/connection.rs:165-174 | the retired set stays exactly the last 128 retirements, distinct |
| `Commands.FinishValid` | examples/controller-bridge/src/adapter/connection.rs:235-266 | completing a pending command keeps correlation, matching and the filter, and never replaces a completion |
| `Commands.CancelValid` | examples/controller-bridge/src/adapter/connection.rs:176-181 | cancelling removes exactly that sequence, or nothing |
| `Commands.HandleReplyValid` | examples/controller-bridge/src/adapter/connection.rs:235-266 | a reply completes only its own sequence, as an answer only when the kind fits; an orphan reply changes nothing |
| `Commands.ReplyOutcome` | examples/controller-bridge/src/adapter/connection.rs:235-266 | an Ack answers a ping and a Reloaded a reload, any other reply fails the command it names, and exactly that command is completed; an orphan changes nothing |
| `Commands.CancelOutcome` | examples/controller-bridge/src/adapter/connection.rs:176-181 | a cancel fails exactly the command pending under the sequence |
| `Commands.AcceptOutcome` | examples/controller-bridge/src/adapter/connection.rs:197-201 | an accepted command waits under its sequence with the next ticket |
| `Commands.DrainOutcome` | examples/controller-bridge/src/adapter/connection.rs:268-274 | a drain fails every pending command with its own reason, in whatever order |
| `Commands.DrainValid` | examples/controller-bridge/src/adapter/connection.rs:268-274 | a drain in any order keeps the ledger valid |
| `Commands.DrainEmpties` | examples/controller-bridge/src/adapter/connection.rs:268-274 | a drain leaves nothing pending whatever order the map is visited in |
| `Commands.AcceptedPartition` | examples/controller-bridge/src/adapter/connection.rs:176-274 | accepted commands are the disjoint union of pending and completed |
| `Commands.AcceptedCount` | examples/controller-bridge/src/adapter/connection.rs:176-274 | and their numbers add up |
| `Commands.ReplayWindow` | examples/controller-bridge/src/adapter/connection.rs:165-174 | a retired sequence is refused while fewer than 128 later ones have been retired |
| `Commands.ReplayRelease` | examples/controller-bridge/src/adapter/connection.rs:165-174 | and is released by exactly the 128th |
| `Transport.InMemoryTransport.Connect` | examples/controller-bridge/src/adapter/transport.rs:40-46 | connects unless closed |
| `Transport.InMemoryTransport.Close` | examples/controller-bridge/src/adapter/transport.rs:48-51 | closed |
| `Transport.InMemoryTransport.PushInbound` | examples/controller-bridge/src/adapter/transport.rs:57-73 | appends to the inbound queue |
| `Transport.InMemoryTransport.Recv` | examples/controller-bridge/src/adapter/transport.rs:75-88 | takes steps in order and only while connected; a disconnect step drops the link |
| `Transport.InMemoryTransport.Send` | examples/controller-bridge/src/adapter/transport.rs:90-97 | appends to the outbound list exactly when connected |
| `Connection.StepKeepsInv` | examples/controller-bridge/src/adapter/connection.rs:99-274 | every operation keeps ledger validity, a stalled buffer, outbound = what the transport held at first, then the encodings of the accepted commands, and nothing pending once closed |
| `Connection.ReceiveKeepsInv` | examples/controller-bridge/src/adapter/connection.rs:204-233 | the same for a receive, whatever the inbound bytes |
| `Connection.RunKeepsInv` | examples/controller-bridge/src/adapter/connection.rs:99-274 | the invariant in every state of every run |
| `Connection.RunExtends` | examples/controller-bridge/src/adapter/connection.rs:99-274 | completions are final, and nothing is accepted or completed after a close |
| `Connection.Correlation` | examples/controller-bridge/src/adapter/connection.rs:176-274 | in every run over any transport: pending and completed partition the accepted commands, one outbound frame each, and an answer has its command's sequence and kind |
| `Connection.LinkLossCompletesAll` | examples/controller-bridge/src/adapter/connection.rs:138-274 | a close or a lost link leaves nothing pending and everything completed |
| `Connection.LostLinkDrains` | examples/controller-bridge/src/adapter/connection.rs:218-231 | the reconnect counter rises only in a receive that takes a disconnect from a connected transport, by one, and drains |
| `Connection.LostLinkResets` | examples/controller-bridge/src/adapter/connection.rs:218-231 | in every run a lost link leaves no bytes buffered, the transport connected and exactly the recovery event queued |
| `Connection.LossOutcome` | examples/controller-bridge/src/adapter/connection.rs:138-274 | in every run a close or a lost link fails every pending command, each with its own reason |
| `Connection.CancelInRun` | examples/controller-bridge/src/adapter/connection.rs:176-181 | in every run a cancel fails the pending command with the given reason, or changes nothing |
| `Connection.SendOutcome` | examples/controller-bridge/src/adapter/connection.rs:183-202 | in every run each refusal if and only if its cause holds, changing nothing; otherwise one frame more and the command waiting under the ticket returned |
| `Connection.CloseEnds` | examples/controller-bridge/src/adapter/connection.rs:138-142 | a close leaves link and connection closed and the queued events in place |
| `Connection.OnlyReceiveReconnects` | examples/controller-bridge/src/adapter/connection.rs:204-233 | only a receive ever counts a reconnect |
| `Connection.ReusedSequenceRefused` | examples/controller-bridge/src/adapter/connection.rs:183-202 | in every run a command is refused as retired if and only if its sequence is among the last 128 retired; the set has at most 128 and is disjoint from pending |
| `Connection.OutboundDecodes` | examples/controller-bridge/src/adapter/connection.rs:156-163 | decoding what the connection has sent gives back the accepted commands' payloads in order |
| `Connection.DeviceConnection.constructor` | examples/controller-bridge/src/adapter/connection.rs:100-111 | a new connection over any transport, in whatever state that is |
| `Connection.DeviceConnection.Connect` | examples/controller-bridge/src/adapter/connection.rs:133-136 | the connect step |
| `Connection.DeviceConnection.RetireSequence` | examples/controller-bridge/src/adapter/connection.rs:165-174 | evicts the oldest at 128 entries, then adds the sequence once |
| `Connection.DeviceConnection.Complete` | examples/controller-bridge/src/adapter/connection.rs:235-266 | removes, retires and answers in one |
| `Connection.DeviceConnection.Cancel` | examples/controller-bridge/src/adapter/connection.rs:176-181 | the cancel step |
| `Connection.DeviceConnection.SendCommand` | examples/controller-bridge/src/adapter/connection.rs:183-202 | the send step and its exact error cases |
| `Connection.DeviceConnection.Handle` | examples/controller-bridge/src/adapter/connection.rs:235-266 | one frame: reply, event or error |
| `Connection.DeviceConnection.HandleAll` | examples/controller-bridge/src/adapter/connection.rs:211-214 | frames in order until one cannot be decoded |
| `Connection.DeviceConnection.DrainPendingCommands` | examples/controller-bridge/src/adapter/connection.rs:268-274 | visits every pending entry once, in an unspecified order |
| `Connection.DeviceConnection.Close` | examples/controller-bridge/src/adapter/connection.rs:138-142 | the close step |
| `Connection.DeviceConnection.RecvEvent` | examples/controller-bridge/src/adapter/connection.rs:204-233 | the receive step and what it reports |
| `Connection.DeviceConnection.ReceiveBytes` | examples/controller-bridge/src/adapter/connection.rs:210-216 | feed, handle, first event |
| `Connection.DeviceConnection.DropLink` | examples/controller-bridge/src/adapter/connection.rs:218-231 | reconnect counted, buffer reset, drained, reconnected, recovery event queued |
| `StreamReplies.ChunkHandles` | examples/controller-bridge/src/adapter/connection.rs:210-216 | a chunk's frames complete commands up to the first frame that cannot be decoded |
| `StreamReplies.HandlingEmpties` | examples/controller-bridge/src/adapter/connection.rs:235-266 | handling frames only takes commands out of the pending table, and every command that one of their replies names |
| `StreamReplies.HarmlessIff` | examples/controller-bridge/src/adapter/connection.rs:235-266 | dropping what lies behind the first frame that cannot be decoded changes nothing if and only if no reply there names a command still pending |
| `StreamReplies.HarmlessLedger` | examples/controller-bridge/src/adapter/connection.rs:210-216 | harmless frames complete the same commands however feed calls deliver them |
| `StreamReplies.ChunksIrrelevantIff` | examples/controller-bridge/src/adapter/connection.rs:204-233 | on the input: every way of cutting a byte stream completes the commands that all its frames in order complete if and only if no reply behind the first frame that cannot be decoded names a command still pending there |
| `StreamReplies.StreamLedger` | examples/controller-bridge/src/adapter/connection.rs:204-233 | in every run, a stretch of receives over harmless frames, in particular over frames that can all be decoded, completes the commands those frames complete, whatever the chunks |
| `StreamReplies.ReadableIsHarmless` | examples/controller-bridge/src/adapter/connection.rs:235-266 | frames that can all be decoded are harmless |
| `StreamReplies.HandledIff` | examples/controller-bridge/src/adapter/connection.rs:211-214 | frames are handled to the end if and only if all can be decoded |
| `StreamReplies.ErrorIff` | examples/controller-bridge/src/adapter/connection.rs:204-216 | a receive of a chunk reports an error if and only if the bytes bring an oversized header or complete a frame that cannot be decoded |
| `StreamReplies.HiddenInOneChunk` | examples/controller-bridge/src/adapter/connection.rs:265 | a run in which a reply behind a frame that cannot be decoded is never seen |
| `StreamReplies.SeenInTwoChunks` | examples/controller-bridge/src/adapter/connection.rs:235-266 | a run over the same bytes, cut between the two frames, in which it completes its command |
| `StreamReplies.ExchangeReplays` | examples/controller-bridge/src/adapter/connection.rs:176-233 | in every run, a stretch of receives with sends and cancels in between replays the frames of the bytes in order, each receive exactly those its chunk completes, and each reply among them completes its own command |
| `EventOrder.ChunkQueues` | examples/controller-bridge/src/adapter/connection.rs:261-263 | a chunk queues the events among the frames up to the first that cannot be decoded |
| `EventOrder.EventsInOrder` | examples/controller-bridge/src/adapter/connection.rs:204-233 | in every run the events handed out, followed by those still queued, are the events that arrived in chunks and the two of every lost link, in order |
| `EventOrder.EventsBetween` | examples/controller-bridge/src/adapter/connection.rs:204-233 | the same between any two positions of any run, starting from what was queued |
| `EventOrder.StretchEvents` | examples/controller-bridge/src/adapter/connection.rs:204-263 | in every run over a stretch of receives with sends and cancels in between, commands completed and events handed out are those of the frames in the bytes, cut where the chunks are cut |
| `EventOrder.AfterLostLink` | examples/controller-bridge/src/adapter/connection.rs:218-231 | in every run, after a lost link, commands and events follow from the bytes taken since alone, behind the recovery event, whatever half frame was buffered before |
| `EventOrder.CutsIrrelevant` | examples/controller-bridge/src/adapter/connection.rs:261-263 | when every frame can be decoded the events are those of the stream, however it is cut |
| `Diagnostics.RunKeepsInv` | service-daemon/src/core/diagnostics.rs:673-749 | in every interleaving of registrations and records, totals at the three levels differ by exactly the increments still to come |
| `Diagnostics.TickKeepsInv` | service-daemon/src/core/diagnostics.rs:354-398 | one atomic increment keeps those balances |
| `Diagnostics.BeginKeepsInv` | service-daemon/src/core/diagnostics.rs:680-749 | starting a record keeps them |
| `Diagnostics.RegisterKeepsInv` | service-daemon/src/core/diagnostics.rs:785-814 | so does a registration |
| `Diagnostics.Conservation` | service-daemon/src/core/diagnostics.rs:680-749 | with no record under way: a service's counter is the sum over all generations it ever registered, and the four lanes together hold what the services hold, for each counter |
| `Diagnostics.ConservationUnderway` | service-daemon/src/core/diagnostics.rs:680-749 | while records are under way, the exact difference |
| `Diagnostics.ScriptOnce` | service-daemon/src/core/diagnostics.rs:354-398 | a record bumps a counter once per level if it is of the kind that counter counts, else not at all |
| `Diagnostics.EveryRecordCountsOnce` | service-daemon/src/core/diagnostics.rs:680-749 | with no record under way every counter of every generation, service and lane is the number of records of its kind made through it |
| `Diagnostics.StaysRegistered` | service-daemon/src/core/diagnostics.rs:785-814 | a registration adds one generation, which has its number, lane and service ever after |
| `Diagnostics.CanRegister` | service-daemon/src/core/diagnostics.rs:785-814 | a registration is never refused and yields a handle to record through |
| `Diagnostics.NeverStuck` | service-daemon/src/core/diagnostics.rs:354-398 | a record under way can always make its next increment |
| `Retention.TopSize` | service-daemon/src/core/diagnostics.rs:896-915 | the retained set has min(1024, n) members, all greater than everything left out |
| `Retention.SortedPrefixIsVictims` | service-daemon/src/core/diagnostics.rs:906-914 | sorting and taking all but the last 1024 yields exactly the numbers with at least 1024 greater ones |
| `Retention.TopAbsorbs` | service-daemon/src/core/diagnostics.rs:896-915 | evicting before the next registration loses nothing that would be kept |
| `Retention.SortedElements` | service-daemon/src/core/diagnostics.rs:906-910 | the numbers found, each once, smallest first |
| `Retention.GenerationTable.RegisterGeneration` | service-daemon/src/core/diagnostics.rs:785-814 | one registration after another keeps exactly the 1024 largest numbers ever registered |
| `Retention.GenerationTable.RetainRecent` | service-daemon/src/core/diagnostics.rs:896-915 | the eviction loop leaves the 1024 largest |
| `Retention.RunKeepsInv` | service-daemon/src/core/diagnostics.rs:785-814 | invariant of concurrent registrations whose map walks overlap insertions and removals |
| `Retention.RecentAlwaysRetained` | service-daemon/src/core/diagnostics.rs:896-915 | at every moment the 1024 largest numbers registered so far are retained |
| `Retention.RetainsExactlyRecent` | service-daemon/src/core/diagnostics.rs:785-814 | when all registrations have returned, in any order and overlap, exactly the 1024 largest distinct numbers remain |
| `Retention.NeverStuck` | service-daemon/src/core/diagnostics.rs:785-814 | a registration under way is never blocked by others |
| `UpdateMax.ActKeepsInv` | service-daemon/src/core/diagnostics.rs:937-945 | the cell is the maximum of its initial value and the values of finished calls |
| `UpdateMax.RunKeepsInv` | service-daemon/src/core/diagnostics.rs:937-945 | that in every interleaving, spurious failures included |
| `UpdateMax.Monotone` | service-daemon/src/core/diagnostics.rs:937-945 | the cell never decreases |
| `UpdateMax.FinalMaximum` | service-daemon/src/core/diagnostics.rs:937-945 | once all calls have finished the cell is the maximum of the initial value and everything submitted |
| `UpdateMax.FailureMeansProgress` | service-daemon/src/core/diagnostics.rs:937-945 | a failure that is not spurious means the cell has grown meanwhile |
| `UpdateMax.AloneFinishes` | service-daemon/src/core/diagnostics.rs:937-945 | a call left alone finishes within three steps from wherever it is |
| `Windows.MaxDriftIsMaximum` | service-daemon/src/core/diagnostics.rs:266-291 | the recorded maximum is attained by a completed observation and exceeded by none |
| `Windows.Splits` | service-daemon/src/core/diagnostics.rs:266-291 | how each statistic of a history follows from its two halves |
| `Windows.OfOne` | service-daemon/src/core/diagnostics.rs:266-291 | the statistics of one observation, completed or not |
| `Windows.ObservationStats.Record` | service-daemon/src/core/diagnostics.rs:266-291 | the cells stay the statistics of the whole history |
| `Windows.ObservationStats.Snapshot` | service-daemon/src/core/diagnostics.rs:293-309 | the snapshot is the history's statistics, floored to milliseconds |
| `ObservationRace.RunKeepsInv` | service-daemon/src/core/diagnostics.rs:266-291 | in every interleaving of record calls each counter is the total less what is still to be added |
| `ObservationRace.RaceIsRecorded` | service-daemon/src/core/diagnostics.rs:266-291 | once all racing record calls have returned every counter is the sum and the maximum the maximum of the observations; the last drift is that of a completed observation, or 0 if there is none |
| `ObservationRace.NeverStuck` | service-daemon/src/core/diagnostics.rs:266-291 | a record call that has not returned has a step |
| `Windows.ProvenMaxHonest` | service-daemon/src/core/adaptive_scheduling.rs:658-664 | a proven maximum is the millisecond floor of the window's own largest drift, and is given if and only if something completed and there is no baseline or that floor exceeds the baseline's |
| `Windows.WindowCounts` | service-daemon/src/core/adaptive_scheduling.rs:646-689 | counts and last drift are those of the window's own observations |
| `Windows.WindowTotals` | service-daemon/src/core/adaptive_scheduling.rs:646-689 | requested, elapsed and drift totals of a window are those of its own observations, or one millisecond more when the floors carry |
| `Windows.FloorsCommute` | service-daemon/src/core/diagnostics.rs:926-928 | flooring to a unit and flooring a quotient commute |
| `Windows.AverageWithoutBaseline` | service-daemon/src/core/adaptive_scheduling.rs:687 | the average from floored milliseconds equals the snapshot's average from nanoseconds |
| `Windows.AverageWithBaseline` | service-daemon/src/core/adaptive_scheduling.rs:650-687 | the average is exact, or exactly 1 ms above, the latter if and only if the floors carry and the carried total is a multiple of the sample count |
| `Windows.AverageCanExceed` | service-daemon/src/core/adaptive_scheduling.rs:687 | one nanosecond of drift that reads as a millisecond |
| `Sampler.DiagnosticsSampler.Sample` | service-daemon/src/core/adaptive_scheduling.rs:107-111 | the window against the previous snapshot, which the current one replaces |
| `Sampler.WindowIsDelta` | service-daemon/src/core/adaptive_scheduling.rs:646-742 | every cumulative counter of a window is the delta of the same counter |
| `Sampler.WindowPart` | service-daemon/src/core/adaptive_scheduling.rs:525-596 | a window has exactly the keys of the current snapshot, each against its own predecessor, with the current gauges; it has a baseline if and only if there was a snapshot before |
| `Sampler.DeltaSaturates` | service-daemon/src/core/adaptive_scheduling.rs:867-869 | a delta makes up the difference, or is 0 for a counter that went back |
| `Sampler.Telescopes` | service-daemon/src/core/adaptive_scheduling.rs:107-111 | over any run of samples the windows' deltas for a service or lane add up to its latest counter |
| `Sampler.HistoriesAccumulate` | service-daemon/src/core/diagnostics.rs:293-309 | snapshots of a growing history, of sleeps or of runtime probes, never go back in spite of flooring |
| `Sampler.WindowsHonest` | service-daemon/src/core/adaptive_scheduling.rs:525-596 | in every window of every run, for sleeps and for runtime probes, counts, last drift and proven maximum are those of the observations since the previous sample |

## Left out

- The wave supervisor, the service and trigger runners and the scale monitor: they are not part of this model, and nothing here depends on them.
- Procedural macros, registry and tag filtering, Mermaid export, web API, example services: plumbing around the framework.
- Protobuf bytes: encoding and decoding of messages are given functions; a decoded message is a reply, an event or an error.
- Tokio, DashMap and `select!` internals: a notifier registers and wakes, a semaphore counts, a map entry operation is atomic. Only in `Retention` is a map walk taken apart.
- Memory ordering: atomic operations are sequentially consistent.
- Tracing, audit events, file logging, sockets, cron, environment lookup.
- Float rounding: f64 arithmetic is exact on reals, and durations are not rounded to nanoseconds in `Backoff` and `ProviderInit`.
- 64-bit overflow of diagnostics counters and of nanosecond totals: counters are unbounded.
- Snapshots of diagnostics are taken at one instant; the program reads the cells one after the other.
- Retry budgets and the remaining fields of `RestartPolicy`, of scaling cooldown and of shutdown statistics: they are stored and copied only.
- `resolve_managed` on the root slot, which runs `init` on every call, and the mutex wrappers, which delegate to the lock.
- `ConnectionHandle::replace_connection`, which drops pending senders outside the protocol.
- The watch channel's receiver and the lock's once-cell are filled in one step in `OnceInit`; the notifier shared by a lock and its waiters exists from the start in `ValueWatch`.
- A reconcile still under way on a record that has been removed meanwhile.
- ProviderScope.RunRefines: models the scopes' maps as values in a transition system rather than as objects updated in place; which slot is shared is captured by slot addresses.
- Diagnostics.Conservation: covers the lifecycle counters; provider-failure and shutdown-boundary statistics are recorded at the same three levels and are not modelled.
- OverlayStore.TriggerPolicyOverlayStore.ApplyEffectiveConcurrency: is stated for a call that nothing interrupts; the interleaved case is `TriggerOverlay.ReapplyKeepsIff`.
