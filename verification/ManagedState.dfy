/**
 Tracked provider state: a lock whose current value and last published value
 are shared, reference-counted cells.  Writing copies a cell that anyone else
 still holds; a dirty flag decides whether releasing the guard publishes.
 */
module ManagedState {
  /** A shared allocation; holding a reference is holding a count on it. */
  class Cell<T> {
    var value: T

    constructor (value: T)
      ensures this.value == value
    {
      this.value := value;
    }
  }

  /** What the lock is specified by: its value, whether it has unpublished writes, and every published value. */
  datatype LockState<T> = LockState(value: T, dirty: bool, published: seq<T>)

  datatype GuardOp<T> = Write(value: T) | Commit | Publish(value: T)

  function Committed<T>(s: LockState<T>): LockState<T> {
    if s.dirty then s.(dirty := false, published := s.published + [s.value]) else s
  }

  function Apply<T>(s: LockState<T>, op: GuardOp<T>): LockState<T> {
    match op
    case Write(value) => s.(value := value, dirty := true)
    case Commit => Committed(s)
    case Publish(value) => LockState(value, false, s.published + [value])
  }

  function Session<T>(s: LockState<T>, ops: seq<GuardOp<T>>): LockState<T>
    decreases ops
  {
    if ops == [] then s else Session(Apply(s, ops[0]), ops[1..])
  }

  class TrackedRwLock<T(==)> {
    var inner: Cell<T>
    var channel: Cell<T>
    var epoch: nat
    /** Cells held by snapshot readers */
    var readers: set<Cell<T>>
    /** The guard's flag; false while no guard exists */
    var dirty: bool
    ghost var published: seq<T>

    ghost predicate Valid()
      reads this, inner, channel
    {
      && published != [] && channel.value == published[|published| - 1]
      && epoch == |published| - 1
      && (!dirty ==> inner.value == channel.value)
    }

    ghost function View(): LockState<T>
      reads this, inner
    {
      LockState(inner.value, dirty, published)
    }

    constructor (initial: Cell<T>)
      ensures Valid() && !dirty && epoch == 0 && published == [initial.value]
      ensures inner == initial && channel == initial && readers == {}
    {
      inner, channel, epoch, readers, dirty := initial, initial, 0, {}, false;
      new;
      published := [initial.value];
    }

    /** Readers share the published cell. */
    method Snapshot() returns (c: Cell<T>)
      requires Valid()
      modifies `readers
      ensures Valid() && c == channel && c.value == published[|published| - 1]
      ensures readers == old(readers) + {c}
    {
      c := channel;
      readers := readers + {c};
    }

    /** A mutation through the guard: in place only if nobody else holds the cell, so no snapshot ever changes. */
    method DerefMut(value: T)
      requires Valid()
      modifies `inner, `dirty, inner
      ensures Valid() && View() == Apply(old(View()), GuardOp.Write(value))
      ensures inner.value == value && dirty && published == old(published)
      ensures channel.value == old(channel.value) && epoch == old(epoch)
      ensures forall c :: c in readers ==> c.value == old(c.value)
    {
      dirty := true;
      if inner == channel || inner in readers {
        inner := new Cell(value);
      } else {
        inner.value := value;
      }
    }

    method PublishCurrent()
      requires Valid() && dirty
      modifies `channel, `epoch, `dirty, `published
      ensures Valid() && View() == Committed(old(View())) && channel == inner == old(inner)
      ensures !dirty && epoch == old(epoch) + 1 && published == old(published) + [inner.value]
    {
      channel := inner;
      epoch := epoch + 1;
      dirty := false;
      published := published + [inner.value];
    }

    /** Also what dropping the guard does: publish exactly when there is something unpublished. */
    method Commit()
      requires Valid()
      modifies `channel, `epoch, `dirty, `published
      ensures Valid() && !dirty && View() == Apply(old(View()), GuardOp.Commit)
      ensures epoch == old(epoch) + (if old(dirty) then 1 else 0)
      ensures inner == old(inner) && inner.value == channel.value
      ensures published == if old(dirty) then old(published) + [inner.value] else old(published)
    {
      if dirty {
        PublishCurrent();
      }
    }

    method Publish(cell: Cell<T>)
      requires Valid()
      modifies `inner, `channel, `epoch, `dirty, `published
      ensures Valid() && View() == Apply(old(View()), GuardOp.Publish(cell.value))
      ensures inner == cell && channel == cell && epoch == old(epoch) + 1
      ensures !dirty && published == old(published) + [cell.value]
    {
      inner, channel := cell, cell;
      epoch := epoch + 1;
      dirty := false;
      published := published + [cell.value];
    }
  }

  // ----- Whole guard sessions

  predicate Touches<T>(ops: seq<GuardOp<T>>) {
    exists i :: 0 <= i < |ops| && !ops[i].Commit?
  }

  /** Nothing is unpublished unless it was written. */
  ghost predicate Settled<T>(s: LockState<T>) {
    s.published != [] && (!s.dirty ==> s.value == s.published[|s.published| - 1])
  }

  lemma {:induction false} SessionSettled<T>(s: LockState<T>, ops: seq<GuardOp<T>>)
    requires Settled(s)
    ensures Settled(Session(s, ops)) && s.published <= Session(s, ops).published
    decreases ops
  {
    if ops == [] {
    } else {
      SessionSettled(Apply(s, ops[0]), ops[1..]);
    }
  }

  /** Once the guard is dropped, what readers see is what the lock holds; the history only grew. */
  lemma DropPublishes<T>(s: LockState<T>, ops: seq<GuardOp<T>>)
    requires Settled(s)
    ensures var after := Committed(Session(s, ops));
            && !after.dirty && after.published != []
            && after.value == after.published[|after.published| - 1]
            && s.published <= after.published
  {
    SessionSettled(s, ops);
  }

  // ----- Which values a session leaves and publishes

  /** What operation i of a session makes public: a published value, or the write right before a commit. */
  function Released<T>(ops: seq<GuardOp<T>>, i: nat): seq<T>
    requires i < |ops|
  {
    match ops[i]
    case Write(_) => []
    case Publish(value) => [value]
    case Commit => if i > 0 && ops[i - 1].Write? then [ops[i - 1].value] else []
  }

  function ReleasedUpTo<T>(ops: seq<GuardOp<T>>, n: nat): seq<T>
    requires n <= |ops|
  {
    if n == 0 then [] else ReleasedUpTo(ops, n - 1) + Released(ops, n - 1)
  }

  lemma {:induction false} SessionAppend<T>(s: LockState<T>, ops: seq<GuardOp<T>>, op: GuardOp<T>)
    ensures Session(s, ops + [op]) == Apply(Session(s, ops), op)
    decreases ops
  {
    if ops == [] {
      assert [op][1..] == [];
      assert ops + [op] == [op];
    } else {
      assert (ops + [op])[1..] == ops[1..] + [op];
      SessionAppend(Apply(s, ops[0]), ops[1..], op);
    }
  }

  /** After n operations on a clean lock: what it holds, whether it is dirty, and everything it has published. */
  lemma {:induction false} SessionSoFar<T>(s: LockState<T>, ops: seq<GuardOp<T>>, n: nat)
    requires !s.dirty && n <= |ops|
    ensures var t := Session(s, ops[..n]);
            && t.published == s.published + ReleasedUpTo(ops, n)
            && (t.dirty <==> n > 0 && ops[n - 1].Write?)
            && (n > 0 && !ops[n - 1].Commit? ==> t.value == ops[n - 1].value)
            && (n > 0 && ops[n - 1].Commit? ==> t.value == Session(s, ops[..n - 1]).value)
  {
    if n == 0 {
      assert ops[..0] == [];
    } else {
      SessionSoFar(s, ops, n - 1);
      assert ops[..n] == ops[..n - 1] + [ops[n - 1]];
      SessionAppend(s, ops[..n - 1], ops[n - 1]);
    }
  }

  lemma {:induction false} CommitsKeepValue<T>(s: LockState<T>, ops: seq<GuardOp<T>>, i: nat, n: nat)
    requires !s.dirty && i < n <= |ops| && !ops[i].Commit? && forall j :: i < j < n ==> ops[j].Commit?
    ensures Session(s, ops[..n]).value == ops[i].value
    decreases n
  {
    SessionSoFar(s, ops, n);
    if n == i + 1 {
    } else {
      CommitsKeepValue(s, ops, i, n - 1);
    }
  }

  /** After any session and its guard's drop, the value held and last published is that of the last write or publish. */
  lemma LastValueWins<T>(s: LockState<T>, ops: seq<GuardOp<T>>, i: nat)
    requires Settled(s) && !s.dirty && i < |ops| && !ops[i].Commit? && forall j :: i < j < |ops| ==> ops[j].Commit?
    ensures var after := Session(s, ops + [Commit]);
            && after.value == ops[i].value && !after.dirty
            && after.published != [] && after.published[|after.published| - 1] == ops[i].value
  {
    CommitsKeepValue(s, ops, i, |ops|);
    assert ops[..|ops|] == ops;
    SessionAppend(s, ops, Commit);
    SessionSettled(s, ops);
  }

  /** Everything a session and its drop publish: the published values and the writes before each commit, in order. */
  lemma SessionPublishes<T>(s: LockState<T>, ops: seq<GuardOp<T>>)
    requires !s.dirty
    ensures Session(s, ops + [Commit]).published == s.published + ReleasedUpTo(ops + [Commit], |ops| + 1)
  {
    var all := ops + [Commit];
    SessionSoFar(s, all, |all|);
    assert all[..|all|] == all;
  }

  /** A guard under which nothing was written publishes nothing, however often it commits. */
  lemma {:induction false} UntouchedSessionSilent<T>(s: LockState<T>, ops: seq<GuardOp<T>>)
    requires Settled(s) && !s.dirty && !Touches(ops)
    ensures Committed(Session(s, ops)) == s
    decreases ops
  {
    if ops == [] {
    } else {
      assert ops[0].Commit?;
      forall i | 0 <= i < |ops[1..]| ensures ops[1..][i].Commit? {
        assert ops[1..][i] == ops[i + 1];
      }
      UntouchedSessionSilent(s, ops[1..]);
    }
  }

  /** Between two writes at most one commit publishes: a second one is a no-op. */
  lemma CommitIdempotent<T>(s: LockState<T>)
    ensures Committed(Committed(s)) == Committed(s)
    ensures |Committed(s).published| <= |s.published| + 1
  {
  }
}
