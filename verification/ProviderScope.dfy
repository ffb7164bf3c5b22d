/**
 Provider scopes: per-daemon bindings laid over the root slots.

 Slots are managers at addresses that are allocated and never reused, so two
 lookups share state exactly when they resolve to the same address.  Installing
 a local slot takes two atomic steps, inserting the slot and then binding it,
 and any steps of other callers may fall in between.  A publication goes through
 an address that some caller resolved earlier, current or not.
 */
module ProviderScope {
  import opened Wrappers
  import opened Bindings

  type Key = (nat, nat) // scope, provider type

  datatype Slot = Slot(value: int, epoch: nat)

  datatype State = State(
    slots: seq<Slot>,
    root: map<nat, nat>,
    local: map<Key, nat>,
    bindings: map<Key, Binding>)

  function BindingOf(s: State, k: Key): Option<Binding> {
    if k in s.bindings then Some(s.bindings[k]) else None
  }

  function Effective(s: State, k: Key): Snapshot {
    EffectiveBinding(k.0, BindingOf(s, k))
  }

  /** Which slot a snapshot or lock resolve in scope k.0 for type k.1 uses. */
  function Resolve(s: State, k: Key): nat
    requires k.1 in s.root
  {
    if Effective(s, k).scope == k.0 && k in s.local then s.local[k] else s.root[k.1]
  }

  function SlotAt(s: State, address: nat): Slot {
    if address < |s.slots| then s.slots[address] else Slot(0, 0)
  }

  datatype Step =
    | AddRoot(provider: nat, value: int)
    | InsertSlot(key: Key, value: int)
    | Bind(key: Key, kind: Kind)
    | Publish(address: nat, value: int)

  ghost predicate Act(s: State, t: Step, s': State) {
    match t
    case AddRoot(provider, value) =>
      provider !in s.root
      && s' == s.(slots := s.slots + [Slot(value, 0)], root := s.root[provider := |s.slots|])
    case InsertSlot(key, value) =>
      s' == s.(slots := s.slots + [Slot(value, 0)], local := s.local[key := |s.slots|])
    case Bind(key, kind) =>
      key in s.local && s' == s.(bindings := s.bindings[key := MutatedBinding(BindingOf(s, key), kind)])
    case Publish(address, value) =>
      address < |s.slots|
      && s' == s.(slots := s.slots[address := Slot(value, s.slots[address].epoch + 1)])
  }

  // ----- Addresses are never shared

  ghost predicate Allocated(s: State) {
    && (forall t :: t in s.root ==> s.root[t] < |s.slots|)
    && (forall k :: k in s.local ==> s.local[k] < |s.slots|)
    && (forall k :: k in s.bindings ==> k in s.local)
  }

  ghost predicate Unshared(s: State) {
    && (forall t, t' :: t in s.root && t' in s.root && t != t' ==> s.root[t] != s.root[t'])
    && (forall k, k' :: k in s.local && k' in s.local && k != k' ==> s.local[k] != s.local[k'])
    && (forall t, k :: t in s.root && k in s.local ==> s.root[t] != s.local[k])
  }

  ghost predicate Inv(s: State) {
    Allocated(s) && Unshared(s)
  }

  lemma StepAllocates(s: State, t: Step, s': State)
    requires Allocated(s) && Act(s, t, s')
    ensures Allocated(s')
  {
    match t {
      case AddRoot(_, _) =>
      case InsertSlot(_, _) =>
      case Bind(_, _) =>
      case Publish(_, _) =>
    }
  }

  lemma StepUnshared(s: State, t: Step, s': State)
    requires Inv(s) && Act(s, t, s')
    ensures Unshared(s')
  {
    match t {
      case AddRoot(_, _) =>
      case InsertSlot(_, _) =>
      case Bind(_, _) =>
      case Publish(_, _) =>
    }
  }

  lemma ActKeepsInv(s: State, t: Step, s': State)
    requires Inv(s) && Act(s, t, s')
    ensures Inv(s')
  {
    hide Act, Allocated, Unshared;
    StepAllocates(s, t, s');
    StepUnshared(s, t, s');
  }

  ghost predicate Run(states: seq<State>, steps: seq<Step>) {
    && |states| == |steps| + 1 && states[0] == State([], map[], map[], map[])
    && forall i :: 0 <= i < |steps| ==> Act(states[i], steps[i], states[i + 1])
  }

  lemma {:induction false} RunKeepsInv(states: seq<State>, steps: seq<Step>, i: nat)
    requires Run(states, steps) && i < |states|
    ensures Inv(states[i])
  {
    if i == 0 {
    } else {
      RunKeepsInv(states, steps, i - 1);
      ActKeepsInv(states[i - 1], steps[i - 1], states[i]);
    }
  }

  // ----- Refinement of an override map

  /** In the root scope a slot counts from its insertion, in a daemon scope from its binding. */
  predicate Overridden(s: State, k: Key) {
    k in s.local && (k in s.bindings || k.0 == ROOT_SCOPE)
  }

  /** The reference: one root value per type, and overrides. */
  datatype World = World(root: map<nat, int>, overrides: map<Key, int>)

  function Lookup(w: World, k: Key): int
    requires k.1 in w.root
  {
    if k in w.overrides then w.overrides[k] else w.root[k.1]
  }

  datatype WorldOp = SetRoot(provider: nat, value: int) | SetOverride(key: Key, value: int) | Skip

  function Apply(w: World, op: WorldOp): World {
    match op
    case SetRoot(provider, value) => w.(root := w.root[provider := value])
    case SetOverride(key, value) => w.(overrides := w.overrides[key := value])
    case Skip => w
  }

  predicate SameRoot(s: State, w: World, provider: nat) {
    && (provider in s.root <==> provider in w.root)
    && (provider in s.root ==> w.root[provider] == SlotAt(s, s.root[provider]).value)
  }

  predicate SameOverride(s: State, w: World, k: Key) {
    && (Overridden(s, k) <==> k in w.overrides)
    && (Overridden(s, k) ==> w.overrides[k] == SlotAt(s, s.local[k]).value)
  }

  ghost predicate Refines(s: State, w: World) {
    (forall provider :: SameRoot(s, w, provider)) && (forall k :: SameOverride(s, w, k))
  }

  /** Resolving uses the local slot exactly for an overridden key, so it is a lookup in the override map. */
  lemma ResolveIsLookup(s: State, w: World, k: Key)
    requires Inv(s) && Refines(s, w) && k.1 in s.root
    ensures k.1 in w.root && SlotAt(s, Resolve(s, k)).value == Lookup(w, k)
    ensures Resolve(s, k) == if Overridden(s, k) then s.local[k] else s.root[k.1]
    ensures k.0 != ROOT_SCOPE ==> (Overridden(s, k) <==> k in s.bindings)
  {
    assert SameRoot(s, w, k.1) && SameOverride(s, w, k);
  }

  /** The operation on the override map that a step amounts to. */
  ghost predicate AmountsTo(s: State, t: Step, op: WorldOp) {
    match t
    case AddRoot(provider, value) => op == SetRoot(provider, value)
    case InsertSlot(key, value) =>
      op == if key in s.bindings || key.0 == ROOT_SCOPE then SetOverride(key, value) else Skip
    case Bind(key, _) =>
      op == if key in s.local && !Overridden(s, key) then SetOverride(key, SlotAt(s, s.local[key]).value) else Skip
    case Publish(address, value) =>
      || (op.SetRoot? && op.value == value && op.provider in s.root && s.root[op.provider] == address)
      || (op.SetOverride? && op.value == value && Overridden(s, op.key) && s.local[op.key] == address)
      || (op.Skip?
          && (forall p :: p in s.root ==> s.root[p] != address)
          && (forall k :: Overridden(s, k) ==> s.local[k] != address))
  }

  lemma StepKeepsRoot(s: State, w: World, t: Step, s': State, op: WorldOp, provider: nat)
    requires Inv(s) && SameRoot(s, w, provider) && Act(s, t, s') && AmountsTo(s, t, op)
    ensures SameRoot(s', Apply(w, op), provider)
  {
    match t {
      case AddRoot(_, _) =>
      case InsertSlot(_, _) =>
      case Bind(_, _) =>
      case Publish(_, _) =>
    }
  }

  lemma StepKeepsOverride(s: State, w: World, t: Step, s': State, op: WorldOp, k: Key)
    requires Inv(s) && SameOverride(s, w, k) && Act(s, t, s') && AmountsTo(s, t, op)
    ensures SameOverride(s', Apply(w, op), k)
  {
    match t {
      case AddRoot(_, _) =>
      case InsertSlot(_, _) =>
      case Bind(_, _) =>
      case Publish(_, _) =>
    }
  }

  /** Every step amounts to one operation on the override map, and the states stay related. */
  lemma StepRefines(s: State, w: World, t: Step, s': State) returns (op: WorldOp)
    requires Inv(s) && Refines(s, w) && Act(s, t, s')
    ensures AmountsTo(s, t, op) && Refines(s', Apply(w, op))
  {
    op := match t
      case AddRoot(provider, value) => SetRoot(provider, value)
      case InsertSlot(key, value) => if key in s.bindings || key.0 == ROOT_SCOPE then SetOverride(key, value) else Skip
      case Bind(key, _) => if !Overridden(s, key) then SetOverride(key, SlotAt(s, s.local[key]).value) else Skip
      case Publish(_, _) => Skip;
    if t.Publish? {
      op := PublishOp(s, t);
    }
    forall provider ensures SameRoot(s', Apply(w, op), provider) {
      assert SameRoot(s, w, provider);
      StepKeepsRoot(s, w, t, s', op, provider);
    }
    forall k ensures SameOverride(s', Apply(w, op), k) {
      assert SameOverride(s, w, k);
      StepKeepsOverride(s, w, t, s', op, k);
    }
  }

  lemma PublishOp(s: State, t: Step) returns (op: WorldOp)
    requires t.Publish?
    ensures AmountsTo(s, t, op)
  {
    if p :| p in s.root && s.root[p] == t.address {
      op := SetRoot(p, t.value);
    } else if k :| k in s.local && Overridden(s, k) && s.local[k] == t.address {
      op := SetOverride(k, t.value);
    } else {
      op := Skip;
    }
  }

  /** Every run of scopes is matched by a run of the override map, one operation per step. */
  lemma RunRefines(states: seq<State>, steps: seq<Step>) returns (worlds: seq<World>, ops: seq<WorldOp>)
    requires Run(states, steps)
    ensures |worlds| == |states| && |ops| == |steps| && worlds[0] == World(map[], map[])
    ensures forall i :: 0 <= i < |steps| ==>
            AmountsTo(states[i], steps[i], ops[i]) && worlds[i + 1] == Apply(worlds[i], ops[i])
    ensures forall i :: 0 <= i < |states| ==> Refines(states[i], worlds[i])
  {
    hide Act, AmountsTo, Apply, Refines;
    worlds, ops := RefinesUpTo(states, steps, |steps|);
  }

  lemma {:induction false} RefinesUpTo(states: seq<State>, steps: seq<Step>, n: nat)
    returns (worlds: seq<World>, ops: seq<WorldOp>)
    requires Run(states, steps) && n <= |steps|
    ensures |worlds| == n + 1 && |ops| == n && worlds[0] == World(map[], map[])
    ensures forall i :: 0 <= i < n ==>
            AmountsTo(states[i], steps[i], ops[i]) && worlds[i + 1] == Apply(worlds[i], ops[i])
    ensures forall i :: 0 <= i <= n ==> Refines(states[i], worlds[i])
  {
    if n == 0 {
      worlds, ops := [World(map[], map[])], [];
    } else {
      hide Act, Inv, AmountsTo, Apply, Refines;
      worlds, ops := RefinesUpTo(states, steps, n - 1);
      RunKeepsInv(states, steps, n - 1);
      var op := StepRefines(states[n - 1], worlds[n - 1], steps[n - 1], states[n]);
      worlds, ops := worlds + [Apply(worlds[n - 1], op)], ops + [op];
    }
  }

  // ----- What a slot holds

  /** Step m wrote the slot at this address: it made the slot or published to it. */
  ghost predicate Writes(states: seq<State>, steps: seq<Step>, m: nat, address: nat) {
    && m < |steps| && m < |states|
    && match steps[m]
       case AddRoot(_, _) => address == |states[m].slots|
       case InsertSlot(_, _) => address == |states[m].slots|
       case Bind(_, _) => false
       case Publish(a, _) => address == a
  }

  function Written(t: Step): int
    requires !t.Bind?
  {
    match t
    case AddRoot(_, value) => value
    case InsertSlot(_, value) => value
    case Publish(_, value) => value
  }

  /** In every run a slot holds what was written to it last, and its epoch rises with each publication and only then. */
  lemma {:induction false} LastWriteHolds(states: seq<State>, steps: seq<Step>, i: nat, address: nat) returns (m: nat)
    requires Run(states, steps) && i < |states| && address < |states[i].slots|
    ensures m < i && Writes(states, steps, m, address) && states[i].slots[address].value == Written(steps[m])
    ensures forall n :: m < n < i ==> !Writes(states, steps, n, address)
    ensures states[m + 1].slots[address] == states[i].slots[address]
    ensures steps[m].Publish? ==> states[i].slots[address].epoch == states[m].slots[address].epoch + 1
    ensures !steps[m].Publish? ==> states[i].slots[address].epoch == 0
  {
    assert i > 0;
    m := i - 1;
    assert Act(states[m], steps[m], states[i]);
    if !Writes(states, steps, i - 1, address) {
      m := LastWriteHolds(states, steps, i - 1, address);
    }
  }

  // ----- Isolation

  /** The key whose lookups a step may change: its own, or the one holding the published address. */
  ghost predicate Concerns(s: State, t: Step, k: Key)
    requires k.1 in s.root
  {
    match t
    case AddRoot(_, _) => false
    case InsertSlot(key, _) => key == k
    case Bind(key, _) => key == k
    case Publish(address, _) => Resolve(s, k) == address
  }

  /** No step is visible to any other key: not to the root, not to another scope, not to another type. */
  lemma Isolation(states: seq<State>, steps: seq<Step>, i: nat, k: Key)
    requires Run(states, steps) && i < |steps| && k.1 in states[i].root
    requires !Concerns(states[i], steps[i], k)
    ensures k.1 in states[i + 1].root && Resolve(states[i + 1], k) == Resolve(states[i], k)
    ensures SlotAt(states[i + 1], Resolve(states[i + 1], k)) == SlotAt(states[i], Resolve(states[i], k))
  {
    RunKeepsInv(states, steps, i);
    assert Act(states[i], steps[i], states[i + 1]);
  }

  /**
   An override's address belongs to one key; a root address serves every scope
   without an override, and no override.
   */
  lemma AddressOwners(states: seq<State>, steps: seq<Step>, i: nat, k: Key, k': Key)
    requires Run(states, steps) && i < |states| && k.1 in states[i].root && k'.1 in states[i].root && k != k'
    ensures var s := states[i];
            Resolve(s, k) == Resolve(s, k') <==> k.1 == k'.1 && !Overridden(s, k) && !Overridden(s, k')
  {
    RunKeepsInv(states, steps, i);
  }

  // ----- Reads that are not one step

  /** A resolve reads the binding first and the slot later. */
  function ResolveReads(early: State, late: State, k: Key): nat
    requires k.1 in late.root
  {
    if Effective(early, k).scope == k.0 && k in late.local then late.local[k] else late.root[k.1]
  }

  /** Roots and bindings, once there, stay; slots are never taken away. */
  lemma {:induction false} Lasting(states: seq<State>, steps: seq<Step>, i: nat, j: nat, k: Key)
    requires Run(states, steps) && i <= j < |states|
    ensures |states[i].slots| <= |states[j].slots|
    ensures k.1 in states[i].root ==> k.1 in states[j].root && states[j].root[k.1] == states[i].root[k.1]
    ensures k in states[i].bindings ==> k in states[j].bindings
    decreases j
  {
    if i == j {
    } else {
      Lasting(states, steps, i, j - 1, k);
      assert Act(states[j - 1], steps[j - 1], states[j]);
    }
  }

  /**
   Whatever happens between the two reads, the slot found is the one that a
   resolve in one step finds at one of them.
   */
  lemma ResolveLinearizes(states: seq<State>, steps: seq<Step>, i: nat, j: nat, k: Key)
    requires Run(states, steps) && i <= j < |states| && k.1 in states[i].root
    ensures k.1 in states[j].root
    ensures || ResolveReads(states[i], states[j], k) == Resolve(states[i], k)
            || ResolveReads(states[i], states[j], k) == Resolve(states[j], k)
  {
    Lasting(states, steps, i, j, k);
  }

  // ----- Dependency watches

  /** A watch remembers the slot it resolved, that slot's epoch and the binding. */
  datatype Watch = Watch(key: Key, address: nat, epoch: nat, binding: Snapshot)

  /** Its capture reads the binding, then the slot, then the epoch. */
  function CaptureReads(first: State, second: State, third: State, k: Key): Watch
    requires k.1 in second.root
  {
    var address := ResolveReads(first, second, k);
    Watch(k, address, SlotAt(third, address).epoch, Effective(first, k))
  }

  function Capture(s: State, k: Key): Watch
    requires k.1 in s.root
  {
    CaptureReads(s, s, s, k)
  }

  predicate ByValue(s: State, w: Watch) {
    SlotAt(s, w.address).epoch != w.epoch
  }

  predicate ByBinding(s: State, w: Watch) {
    Effective(s, w.key) != w.binding
  }

  lemma {:induction false} EpochStays(states: seq<State>, steps: seq<Step>, i: nat, j: nat, address: nat)
    requires Run(states, steps) && i <= j < |states| && address < |states[i].slots|
    requires forall m :: i <= m < j ==> !(steps[m].Publish? && steps[m].address == address)
    ensures address < |states[j].slots| && SlotAt(states[j], address) == SlotAt(states[i], address)
    decreases j
  {
    if i == j {
    } else {
      EpochStays(states, steps, i, j - 1, address);
      assert Act(states[j - 1], steps[j - 1], states[j]);
    }
  }

  lemma {:induction false} BindingStays(states: seq<State>, steps: seq<Step>, i: nat, j: nat, k: Key)
    requires Run(states, steps) && i <= j < |states|
    requires forall m :: i <= m < j ==> !(steps[m].Bind? && steps[m].key == k)
    ensures BindingOf(states[j], k) == BindingOf(states[i], k)
    decreases j
  {
    if i == j {
    } else {
      BindingStays(states, steps, i, j - 1, k);
      assert Act(states[j - 1], steps[j - 1], states[j]);
    }
  }

  /**
   A watch whose capture read binding, slot and epoch at a, b and c stays
   incomplete until its key is bound after a or its slot published to after c.
   */
  lemma WatchStaysQuiet(states: seq<State>, steps: seq<Step>, a: nat, b: nat, c: nat, j: nat, k: Key)
    requires Run(states, steps) && a <= b <= c <= j < |states| && k.1 in states[b].root
    requires forall m :: a <= m < j ==> !(steps[m].Bind? && steps[m].key == k)
    requires var address := ResolveReads(states[a], states[b], k);
             forall m :: c <= m < j ==> !(steps[m].Publish? && steps[m].address == address)
    ensures var w := CaptureReads(states[a], states[b], states[c], k);
            !ByValue(states[j], w) && !ByBinding(states[j], w)
  {
    RunKeepsInv(states, steps, b);
    Lasting(states, steps, b, c, k);
    EpochStays(states, steps, c, j, ResolveReads(states[a], states[b], k));
    BindingStays(states, steps, a, j, k);
  }

  /** Slots made the root of some type later are new ones. */
  lemma {:induction false} LaterRootsAreNew(states: seq<State>, steps: seq<Step>, i: nat, j: nat, t: nat)
    requires Run(states, steps) && i <= j < |states| && t in states[j].root
    ensures (t in states[i].root && states[i].root[t] == states[j].root[t]) || states[j].root[t] >= |states[i].slots|
    decreases j
  {
    if i == j {
    } else {
      assert Act(states[j - 1], steps[j - 1], states[j]);
      if t in states[j - 1].root {
        LaterRootsAreNew(states, steps, i, j - 1, t);
      } else {
        Lasting(states, steps, i, j - 1, (ROOT_SCOPE, t));
      }
    }
  }

  /** Publications go only to slots that are a root of some type at that moment. */
  ghost predicate RootPublications(states: seq<State>, steps: seq<Step>, i: nat, j: nat)
    requires j <= |steps| && j <= |states|
  {
    forall m :: i <= m < j && steps[m].Publish? ==>
                  exists t :: t in states[m].root && states[m].root[t] == steps[m].address
  }

  /**
   A watch captured under an override is not completed by publications to root
   slots, however many and of whatever type, nor by anything in other scopes.
   */
  lemma OverrideWatchIgnoresRoot(states: seq<State>, steps: seq<Step>, a: nat, b: nat, c: nat, j: nat, k: Key)
    requires Run(states, steps) && a <= b <= c <= j < |states| && k.1 in states[b].root
    requires Overridden(states[a], k) && RootPublications(states, steps, c, j)
    requires forall m :: a <= m < j ==> !(steps[m].Bind? && steps[m].key == k)
    ensures var w := CaptureReads(states[a], states[b], states[c], k);
            !ByValue(states[j], w) && !ByBinding(states[j], w)
  {
    var address := ResolveReads(states[a], states[b], k);
    OverrideReads(states, steps, a, b, k);
    RunKeepsInv(states, steps, b);
    forall m | c <= m < j ensures !(steps[m].Publish? && steps[m].address == address) {
      if steps[m].Publish? {
        var t :| t in states[m].root && states[m].root[t] == steps[m].address;
        LaterRootsAreNew(states, steps, b, m, t);
      }
    }
    WatchStaysQuiet(states, steps, a, b, c, j, k);
  }

  lemma {:induction false} OverrideReads(states: seq<State>, steps: seq<Step>, i: nat, j: nat, k: Key)
    requires Run(states, steps) && i <= j < |states| && Overridden(states[i], k)
    ensures k in states[j].local
    ensures k.1 in states[j].root ==> ResolveReads(states[i], states[j], k) == states[j].local[k]
    decreases j
  {
    if i == j {
    } else {
      OverrideReads(states, steps, i, j - 1, k);
      assert Act(states[j - 1], steps[j - 1], states[j]);
    }
  }

  /** A publication to the watched slot completes the watch, and so does every visible binding change. */
  lemma WatchCompletes(s: State, t: Step, s': State, k: Key)
    requires Inv(s) && k.1 in s.root && Act(s, t, s')
    ensures t.Publish? && t.address == Resolve(s, k) ==> ByValue(s', Capture(s, k))
    ensures t.Bind? && t.key == k ==>
              (ByBinding(s', Capture(s, k)) <==>
                 !(k in s.bindings && s.bindings[k].epoch >= EPOCH_MAX && s.bindings[k].kind == t.kind))
  {
    if t.Bind? && t.key == k {
      MutationVisibleIff(k.0, BindingOf(s, k), t.kind);
    }
  }
}
