/**
 Which generations of one service the diagnostics store keeps.

 A registration inserts its number, walks the map to collect the numbers it
 finds, and removes all but the 1024 largest of them.  The walk is not a snapshot:
 it surely meets what stays present from its start to its end, and may or may not
 meet what comes or goes meanwhile.
 */
module Retention {
  const RETAINED: nat := 1024

  function Above(s: set<nat>, x: nat): set<nat> {
    set y | y in s && y > x
  }

  /** The largest 1024 elements, or all of them if there are fewer. */
  function Top(s: set<nat>): set<nat> {
    set y | y in s && |Above(s, y)| < RETAINED
  }

  /** What a registration that met `seen` removes. */
  function Victims(seen: set<nat>): set<nat> {
    set y | y in seen && |Above(seen, y)| >= RETAINED
  }

  // ----- Counting

  lemma SubsetSize(a: set<nat>, b: set<nat>)
    requires a <= b
    ensures |a| <= |b|
  {
    assert b == a + (b - a);
  }

  lemma {:induction false} Least(s: set<nat>) returns (m: nat)
    requires s != {}
    ensures m in s && forall y :: y in s ==> m <= y
    decreases |s|
  {
    m :| m in s;
    if exists y :: y in s && y < m {
      var below := set y | y in s && y < m;
      assert m !in below;
      SubsetSize(below, s - {m});
      var n := Least(below);
      forall y | y in s ensures n <= y {
        assert y < m ==> y in below;
      }
      m := n;
    }
  }

  /** The top holds as many elements as fit, and every one of them exceeds everything left out. */
  lemma {:induction false} TopSize(s: set<nat>)
    ensures |Top(s)| == if |s| <= 1024 then |s| else 1024
    ensures forall x, y :: x in s - Top(s) && y in Top(s) ==> x < y
    decreases |s|
  {
    forall x, y | x in s - Top(s) && y in Top(s) ensures x < y {
      if y <= x {
        SubsetSize(Above(s, x), Above(s, y));
      }
    }
    if |s| <= RETAINED {
      forall y | y in s ensures y in Top(s) {
        SubsetSize(Above(s, y), s - {y});
      }
      assert Top(s) == s;
    } else {
      var m := Least(s);
      var rest := s - {m};
      assert Above(s, m) == rest;
      forall y | y in rest ensures Above(s, y) == Above(rest, y) {
      }
      assert Top(s) == Top(rest);
      TopSize(rest);
    }
  }

  /** Whoever meets the whole top of the registered numbers sees enough to evict what is not in it. */
  lemma TopSeen(registered: set<nat>, seen: set<nat>, x: nat)
    requires x in registered && x !in Top(registered) && Top(registered) <= seen
    ensures |Above(seen, x)| >= RETAINED
  {
    TopSize(registered);
    SubsetSize(Above(registered, x), registered);
    assert x in registered - Top(registered);
    assert Top(registered) <= Above(seen, x);
    SubsetSize(Top(registered), Above(seen, x));
  }

  lemma VictimsBelowTop(registered: set<nat>, seen: set<nat>, v: nat)
    requires seen <= registered && v in Victims(seen)
    ensures v in registered && v !in Top(registered)
  {
    SubsetSize(Above(seen, v), Above(registered, v));
  }

  lemma TopShrinks(before: set<nat>, after: set<nat>, v: nat)
    requires before <= after && v in before && v !in Top(before)
    ensures v !in Top(after)
  {
    SubsetSize(Above(before, v), Above(after, v));
  }

  // ----- Sorting and taking a prefix finds exactly the victims

  ghost predicate Sorted(s: seq<nat>) {
    forall i, j :: 0 <= i < j < |s| ==> s[i] < s[j]
  }

  function Elements(s: seq<nat>): set<nat> {
    set y | y in s
  }

  lemma {:induction false} SortedSize(s: seq<nat>)
    requires Sorted(s)
    ensures |Elements(s)| == |s|
  {
    if s == [] {
    } else {
      var front := s[..|s| - 1];
      SortedSize(front);
      assert Elements(s) == Elements(front) + {s[|s| - 1]};
      assert s[|s| - 1] !in Elements(front);
    }
  }

  lemma SortedPrefixIsVictims(s: seq<nat>)
    requires Sorted(s)
    ensures Elements(if |s| <= RETAINED then [] else s[..|s| - RETAINED]) == Victims(Elements(s))
  {
    forall i | 0 <= i < |s| ensures |Above(Elements(s), s[i])| == |s| - 1 - i {
      assert Above(Elements(s), s[i]) == Elements(s[i + 1..]);
      SortedSize(s[i + 1..]);
    }
    var taken := if |s| <= RETAINED then [] else s[..|s| - RETAINED];
    forall y ensures y in Elements(taken) <==> y in Victims(Elements(s)) {
      if y in Elements(taken) {
        var i :| 0 <= i < |taken| && taken[i] == y;
        assert s[i] == y;
      }
      if y in Victims(Elements(s)) {
        var i :| 0 <= i < |s| && s[i] == y;
        assert taken[i] == y;
      }
    }
  }

  /** Keeping only the top before adding a number loses nothing that would be kept. */
  lemma TopAbsorbs(registered: set<nat>, n: nat)
    ensures Top(Top(registered) + {n}) == Top(registered + {n})
  {
    var all, kept := registered + {n}, Top(registered) + {n};
    forall y | y in Top(all) ensures y in kept && Above(kept, y) == Above(all, y) {
      SubsetSize(Above(registered, y), Above(all, y));
      forall z | z in Above(all, y) ensures z in kept {
        SubsetSize(Above(registered, z), Above(all, y));
      }
    }
    forall y | y in Top(kept) ensures y in Top(all) {
      if y !in Top(all) {
        TopSeen(all, kept, y);
      }
    }
  }

  // ----- Registrations one after the other

  lemma ElementsAppend(s: seq<nat>, m: nat)
    ensures Elements(s + [m]) == Elements(s) + {m}
  {
  }

  /** The numbers found, smallest first. */
  method SortedElements(s: set<nat>) returns (sorted: seq<nat>)
    ensures Sorted(sorted) && Elements(sorted) == s
  {
    sorted := [];
    var rest := s;
    while rest != {}
      invariant rest <= s && Elements(sorted) == s - rest && Sorted(sorted)
      invariant forall i, y :: 0 <= i < |sorted| && y in rest ==> sorted[i] < y
      decreases rest
    {
      ghost var least := Least(rest);
      var m :| m in rest && forall y :: y in rest ==> m <= y;
      ElementsAppend(sorted, m);
      sorted := sorted + [m];
      rest := rest - {m};
    }
  }

  /** The retained numbers of one service. */
  class GenerationTable {
    var retained: set<nat>
    /** Every number registered so far. */
    ghost var registered: set<nat>

    ghost predicate Valid()
      reads this
    {
      retained == Top(registered)
    }

    constructor ()
      ensures Valid() && registered == {}
    {
      retained, registered := {}, {};
    }

    method RegisterGeneration(n: nat)
      requires Valid()
      modifies this
      ensures Valid() && registered == old(registered) + {n}
    {
      TopAbsorbs(registered, n);
      retained := retained + {n};
      registered := registered + {n};
      RetainRecent();
    }

    method RetainRecent()
      modifies `retained
      ensures retained == Top(old(retained))
    {
      hide Top, Above, Victims, Elements;
      var generations := SortedElements(retained);
      var count := if |generations| <= RETAINED then 0 else |generations| - RETAINED;
      EvictedAreVictims(generations, retained, count);
      for i := 0 to count
        invariant retained == old(retained) - Elements(generations[..i])
      {
        assert generations[..i + 1] == generations[..i] + [generations[i]];
        ElementsAppend(generations[..i], generations[i]);
        retained := retained - {generations[i]};
      }
    }
  }

  lemma EvictedAreVictims(sorted: seq<nat>, s: set<nat>, count: nat)
    requires Sorted(sorted) && Elements(sorted) == s
    requires count == if |sorted| <= RETAINED then 0 else |sorted| - RETAINED
    ensures Elements(sorted[..0]) == {}
    ensures Top(s) == s - Elements(sorted[..count])
  {
    SortedPrefixIsVictims(sorted);
    assert sorted[..count] == if |sorted| <= RETAINED then [] else sorted[..|sorted| - RETAINED];
  }

  // ----- Concurrent registrations

  datatype Call =
    | Fresh(number: nat)
    | Inserted(number: nat)
    | Walking(number: nat, must: set<nat>, may: set<nat>)
    | Removing(number: nat, victims: set<nat>)

  /** `registered` is history: every number inserted so far. */
  datatype State = State(retained: set<nat>, registered: set<nat>, calls: seq<Call>)

  datatype Action = Insert(c: nat) | Walk(c: nat) | Collect(c: nat, seen: set<nat>) | Remove(c: nat, v: nat)

  function Arrives(call: Call, n: nat): Call {
    if call.Walking? then call.(may := call.may + {n}) else call
  }

  function Departs(call: Call, n: nat): Call {
    if call.Walking? then call.(must := call.must - {n}) else call
  }

  ghost predicate Act(s: State, a: Action, s': State) {
    a.c < |s.calls| && |s'.calls| == |s.calls| &&
    var call := s.calls[a.c];
    match a
    case Insert(c) =>
      && call.Fresh?
      && s'.retained == s.retained + {call.number} && s'.registered == s.registered + {call.number}
      && s'.calls[c] == Inserted(call.number)
      && forall d :: 0 <= d < |s.calls| && d != c ==> s'.calls[d] == Arrives(s.calls[d], call.number)
    case Walk(c) =>
      call.Inserted? && s' == s.(calls := s.calls[c := Walking(call.number, s.retained, s.retained)])
    case Collect(c, seen) =>
      && call.Walking? && call.must <= seen <= call.may
      && s' == s.(calls := s.calls[c := Removing(call.number, Victims(seen))])
    case Remove(c, v) =>
      && call.Removing? && v in call.victims
      && s'.retained == s.retained - {v} && s'.registered == s.registered
      && s'.calls[c] == call.(victims := call.victims - {v})
      && forall d :: 0 <= d < |s.calls| && d != c ==> s'.calls[d] == Departs(s.calls[d], v)
  }

  predicate Quiet(s: State) {
    forall c :: 0 <= c < |s.calls| ==> s.calls[c].Removing? && s.calls[c].victims == {}
  }

  ghost predicate Run(states: seq<State>, actions: seq<Action>) {
    && |states| == |actions| + 1
    && states[0].retained == {} && states[0].registered == {}
    && (forall c :: 0 <= c < |states[0].calls| ==> states[0].calls[c].Fresh?)
    && forall i :: 0 <= i < |actions| ==> Act(states[i], actions[i], states[i + 1])
  }

  /** The call is bound to remove `x`, or to walk the map again with `x` and the whole top in it. */
  ghost predicate Covers(call: Call, x: nat, registered: set<nat>) {
    match call
    case Fresh(_) => false
    case Inserted(_) => true
    case Walking(_, must, _) => x in must && Top(registered) <= must
    case Removing(_, victims) => x in victims
  }

  ghost predicate CallInv(call: Call, registered: set<nat>) {
    && (!call.Fresh? ==> call.number in registered)
    && (call.Walking? ==> call.must <= call.may <= registered)
    && (call.Removing? ==> forall v :: v in call.victims ==> v in registered && v !in Top(registered))
  }

  ghost predicate Covered(s: State, x: nat) {
    exists c :: 0 <= c < |s.calls| && Covers(s.calls[c], x, s.registered)
  }

  ghost predicate Inv(s: State) {
    && Top(s.registered) <= s.retained <= s.registered
    && (forall c :: 0 <= c < |s.calls| ==> CallInv(s.calls[c], s.registered))
    && (forall x :: x in s.retained && x !in Top(s.registered) ==> Covered(s, x))
    && (forall x :: x in s.registered ==>
        exists c :: 0 <= c < |s.calls| && !s.calls[c].Fresh? && s.calls[c].number == x)
  }

  ghost predicate SameNumbers(s: State, s': State) {
    |s'.calls| == |s.calls| && forall c :: 0 <= c < |s.calls| ==> s'.calls[c].number == s.calls[c].number
  }

  lemma InsertKeepsInv(s: State, c: nat, s': State)
    requires Inv(s) && Act(s, Insert(c), s')
    ensures Inv(s')
  {
    forall v | v in s.registered && v !in Top(s.registered) ensures v !in Top(s'.registered) {
      TopShrinks(s.registered, s'.registered, v);
    }
    forall x | x in s'.retained && x !in Top(s'.registered) ensures Covered(s', x) {
      assert Covers(s'.calls[c], x, s'.registered);
    }
    forall x | x in s'.registered
      ensures exists d :: 0 <= d < |s'.calls| && !s'.calls[d].Fresh? && s'.calls[d].number == x
    {
      if x in s.registered {
        var d :| 0 <= d < |s.calls| && !s.calls[d].Fresh? && s.calls[d].number == x;
        assert !s'.calls[d].Fresh? && s'.calls[d].number == x;
      } else {
        assert s'.calls[c].number == x;
      }
    }
  }

  lemma WalkKeepsInv(s: State, c: nat, s': State)
    requires Inv(s) && Act(s, Walk(c), s')
    ensures Inv(s')
  {
    forall x | x in s'.retained && x !in Top(s'.registered) ensures Covered(s', x) {
      assert Covers(s'.calls[c], x, s'.registered);
    }
    StillRegistered(s, c, s');
  }

  lemma CollectKeepsInv(s: State, c: nat, seen: set<nat>, s': State)
    requires Inv(s) && Act(s, Collect(c, seen), s')
    ensures Inv(s')
  {
    forall v | v in Victims(seen) ensures v in s.registered && v !in Top(s.registered) {
      VictimsBelowTop(s.registered, seen, v);
    }
    forall x | x in s'.retained && x !in Top(s'.registered) ensures Covered(s', x) {
      var d :| 0 <= d < |s.calls| && Covers(s.calls[d], x, s.registered);
      if d == c {
        TopSeen(s.registered, seen, x);
      }
      assert Covers(s'.calls[d], x, s'.registered);
    }
    StillRegistered(s, c, s');
  }

  lemma RemoveKeepsInv(s: State, c: nat, v: nat, s': State)
    requires Inv(s) && Act(s, Remove(c, v), s')
    ensures Inv(s')
  {
    hide Top, Above, Victims;
    forall x | x in s'.retained && x !in Top(s'.registered) ensures Covered(s', x) {
      var d :| 0 <= d < |s.calls| && Covers(s.calls[d], x, s.registered);
      assert Covers(s'.calls[d], x, s'.registered);
    }
    StillRegistered(s, c, s');
  }

  lemma StillRegistered(s: State, c: nat, s': State)
    requires Inv(s) && s'.registered == s.registered && |s'.calls| == |s.calls| && c < |s.calls|
    requires forall d :: 0 <= d < |s.calls| && !s.calls[d].Fresh? ==>
             !s'.calls[d].Fresh? && s'.calls[d].number == s.calls[d].number
    ensures forall x :: x in s'.registered ==>
            exists d :: 0 <= d < |s'.calls| && !s'.calls[d].Fresh? && s'.calls[d].number == x
  {
    forall x | x in s'.registered
      ensures exists d :: 0 <= d < |s'.calls| && !s'.calls[d].Fresh? && s'.calls[d].number == x
    {
      var d :| 0 <= d < |s.calls| && !s.calls[d].Fresh? && s.calls[d].number == x;
      assert !s'.calls[d].Fresh? && s'.calls[d].number == x;
    }
  }

  lemma {:induction false} RunKeepsInv(states: seq<State>, actions: seq<Action>, i: nat)
    requires Run(states, actions) && i < |states|
    ensures Inv(states[i]) && SameNumbers(states[0], states[i])
  {
    if i == 0 {
    } else {
      RunKeepsInv(states, actions, i - 1);
      var s, s' := states[i - 1], states[i];
      assert Act(s, actions[i - 1], s');
      match actions[i - 1] {
        case Insert(c) => InsertKeepsInv(s, c, s');
        case Walk(c) => WalkKeepsInv(s, c, s');
        case Collect(c, seen) => CollectKeepsInv(s, c, seen, s');
        case Remove(c, v) => RemoveKeepsInv(s, c, v, s');
      }
    }
  }

  function Numbers(calls: seq<Call>): set<nat> {
    set c | 0 <= c < |calls| :: calls[c].number
  }

  /** At every moment, whatever is under way, the 1024 largest numbers registered so far are retained. */
  lemma RecentAlwaysRetained(states: seq<State>, actions: seq<Action>, i: nat)
    requires Run(states, actions) && i < |states|
    ensures Top(states[i].registered) <= states[i].retained <= states[i].registered
  {
    RunKeepsInv(states, actions, i);
  }

  /**
   Once all registrations have returned, whatever their order and overlap,
   exactly the 1024 largest distinct numbers are retained.
   */
  lemma RetainsExactlyRecent(states: seq<State>, actions: seq<Action>, j: nat)
    requires Run(states, actions) && j < |states| && Quiet(states[j])
    ensures states[j].retained == Top(Numbers(states[0].calls))
  {
    RunKeepsInv(states, actions, j);
    var s := states[j];
    assert s.registered == Numbers(states[0].calls) by {
      forall c | 0 <= c < |s.calls| ensures s.calls[c].number in s.registered {
        assert CallInv(s.calls[c], s.registered);
      }
    }
    forall x | x in s.retained ensures x in Top(s.registered) {
      assert !Covered(s, x);
    }
  }

  /** A registration that has not returned has a step. */
  lemma NeverStuck(states: seq<State>, actions: seq<Action>, i: nat, c: nat) returns (a: Action, s': State)
    requires Run(states, actions) && i < |states| && c < |states[i].calls|
    requires !(states[i].calls[c].Removing? && states[i].calls[c].victims == {})
    ensures a.c == c && Act(states[i], a, s') && s'.calls[c] != states[i].calls[c]
  {
    RunKeepsInv(states, actions, i);
    var s := states[i];
    var call := s.calls[c];
    assert CallInv(call, s.registered);
    hide Top, Above, Victims, Inv;
    match call {
      case Fresh(n) =>
        a := Insert(c);
        var calls := seq(|s.calls|, d requires 0 <= d < |s.calls| => Arrives(s.calls[d], n));
        s' := State(s.retained + {n}, s.registered + {n}, calls[c := Inserted(n)]);
      case Inserted(n) =>
        a, s' := Walk(c), s.(calls := s.calls[c := Walking(n, s.retained, s.retained)]);
      case Walking(n, must, may) =>
        a, s' := Collect(c, must), s.(calls := s.calls[c := Removing(n, Victims(must))]);
      case Removing(n, victims) =>
        var v :| v in victims;
        a := Remove(c, v);
        var calls := seq(|s.calls|, d requires 0 <= d < |s.calls| => Departs(s.calls[d], v));
        s' := State(s.retained - {v}, s.registered, calls[c := Removing(n, victims - {v})]);
    }
  }
}
